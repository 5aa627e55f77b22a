/** The mark/release allocator. */
module MemLifo {
  import opened Basics
  import opened LifoState
  import opened LifoSteps

  /** What the allocator may rely on: a block handed out is new and as large as asked for. The
      function may answer differently at every call. */
  ghost predicate AllocatorOk(f: (nat, set<Block>, nat) -> Option<Block>) {
    forall t: nat, live: set<Block>, sz: nat {:trigger f(t, live, sz)} ::
      f(t, live, sz).Some? ==> New(f(t, live, sz).value, live) && sz <= f(t, live, sz).value.size
  }

  /** The largest request whose rounding is still a positive int. */
  const GROWABLE := 0x7FFF_FFF8

  /** The size of the first chunk, before rounding. */
  function FirstChunk(requested: Word): (r: Word)
    ensures r >= 1000 && r >= requested && (r == 1000 || r == requested)
  {
    if requested < 1000 then 1000 else requested
  }

  lemma Granted(f: (nat, set<Block>, nat) -> Option<Block>, t: nat, live: set<Block>, sz: nat)
    requires AllocatorOk(f) && f(t, live, sz).Some?
    ensures New(f(t, live, sz).value, live) && sz <= f(t, live, sz).value.size
  {
  }

  /** What is left of the head chunk. */
  ghost function Room(m: Mark): int {
    if m.chunks.Link? then End(m.chunks.block) - m.freePtr else 0
  }

  ghost function LastItem(g: Ledger): Item
    requires g.Page? && g.own != []
  {
    g.own[|g.own| - 1]
  }

  /** The size the source computes for the last allocation. */
  function OldSize(m: Mark): int {
    if IsBig(m) then m.big.block.size - HEADER else m.freePtr - m.lastAlloc
  }

  /** What ExpandLast asks for when it moves the last allocation, in 32-bit arithmetic. */
  function Request(m: Mark, incr: Word): nat {
    (OldSize(m) + RoundUp32(incr)) % WORD
  }

  /** What Alloc asks for when `size` bytes do not fit the head chunk: a new chunk when there is little
      room left in it, otherwise a block of its own. */
  function AskFor(chunkSize: Word, room: int, size: nat): nat {
    if room < chunkSize / 8 then (if size > chunkSize / 2 then size + chunkSize else chunkSize) + HEADER
    else size + HEADER
  }

  /** Alloc has no other reason to fail: the request is too large, or it needs a new block and the
      underlying allocator refuses that. */
  ghost predicate AllocFails(f: (nat, set<Block>, nat) -> Option<Block>, chunkSize: Word, t: nat, live: set<Block>,
      room: int, sz: nat)
  {
    sz > MAX_ALLOC || (RoundUp8(sz) > room && f(t, live, AskFor(chunkSize, room, RoundUp8(sz))).None?)
  }

  /** A frame that does not fit as a whole fails with its mark, or else with its allocation in what the
      mark leaves. */
  ghost predicate FrameFails(f: (nat, set<Block>, nat) -> Option<Block>, chunkSize: Word, t: nat, live: set<Block>,
      room: int, sz: nat)
  {
    sz > MAX_ALLOC || (RoundUp8(sz) + MARK_SIZE > room &&
      if MARK_SIZE <= room then AllocFails(f, chunkSize, t, live, room - MARK_SIZE, RoundUp8(sz))
      else
        match f(t, live, chunkSize)
        case None => true
        case Some(c) => AllocFails(f, chunkSize, t + 1, live + {c}, c.size - HEADER - MARK_SIZE, RoundUp8(sz)))
  }

  /** Moving the last allocation to `sz` bytes fails only for the size or the allocator's refusal. */
  ghost predicate MoveFails(f: (nat, set<Block>, nat) -> Option<Block>, chunkSize: Word, t: nat, live: set<Block>,
      m: Mark, sz: nat)
  {
    if IsBig(m) then sz > MAX_ALLOC || f(t, live, sz + HEADER).None?
    else AllocFails(f, chunkSize, t, live, Room(m), sz)
  }

  /** Expanding fails only where the block cannot grow in place and may not or cannot be moved. */
  ghost predicate ExpandFails(f: (nat, set<Block>, nat) -> Option<Block>, chunkSize: Word, t: nat, live: set<Block>,
      m: Mark, incr: Word, fix: bool)
  {
    if m.lastAlloc == 0 then AllocFails(f, chunkSize, t, live, Room(m), incr)
    else
      (IsBig(m) || RoundUp32(incr) > Room(m)) && (fix || MoveFails(f, chunkSize, t, live, m, Request(m, incr)))
  }

  /** Which increments ExpandLast treats as they are meant, granting or refusing them. */
  predicate CanExpand(m: Mark, incr: Word, fix: bool) {
    m.lastAlloc == 0 || incr <= GROWABLE || (IsBig(m) && (fix || Request(m, incr) > MAX_ALLOC))
  }

  /** Which sizes ResizeLast treats as they are meant. */
  predicate CanResize(m: Mark, newSize: Word) {
    m.lastAlloc == 0 || (newSize <= 0xFFFF_FFF8 && (IsBig(m) || RoundUp32(newSize) - OldSize(m) <= GROWABLE))
  }

  /** Which increments leave the allocator in order: above 0xFFFFFFF8 the rounded increment is 0. */
  predicate KeepsExpand(m: Mark, incr: Word, fix: bool) {
    CanExpand(m, incr, fix) || incr > 0xFFFF_FFF8
  }

  /** Which sizes leave the allocator in order: above 0xFFFFFFF8 the rounded size is 0. */
  predicate KeepsResize(m: Mark, newSize: Word) {
    CanResize(m, newSize) || newSize > 0xFFFF_FFF8
  }

  /** The last item has at least the given size. */
  ghost predicate AtLeast(g: Ledger, n: int) {
    g.Page? && g.own != [] && n <= LastItem(g).size
  }

  /** The last item has become the `n` bytes at `p`, its first bytes are as before, and no byte
      outside it has changed. */
  ghost predicate Resized(g: Ledger, g': Ledger, mem: nat -> int, mem': nat -> int, p: nat, n: nat) {
    && g.Page? && g.own != [] && g' == Relast(g, Item(p, n)) && SameOutside(mem, mem', Item(p, n))
    && Kept(mem, mem', LastItem(g), p, if n < LastItem(g).size then n else LastItem(g).size)
  }

  class Lifo {
    const chunkSize: Word
    const allocFn: (nat, set<Block>, nat) -> Option<Block>
    var top: Mark
    /** The blocks obtained and not yet given back. */
    var live: set<Block>
    var calls: nat
    var mem: nat -> int
    ghost var ledger: Ledger

    ghost predicate InOrder()
      reads this
    {
      Inv(top, ledger) && live == Held(top) && AllocatorOk(allocFn) && chunkSize % 8 == 0
          && 1000 <= chunkSize < 0x8000_0000
    }

    /** In order, and the size of a new chunk cannot wrap. */
    ghost predicate Valid()
      reads this
    {
      InOrder() && chunkSize <= 0x7FFF_FFE8
    }

    method Obtain(sz: nat) returns (r: Option<Block>)
      requires AllocatorOk(allocFn)
      modifies this`live, this`calls
      ensures r.None? ==> live == old(live)
      ensures r.Some? ==> New(r.value, old(live)) && sz <= r.value.size && live == old(live) + {r.value}
      ensures r == allocFn(old(calls), old(live), sz) && calls == old(calls) + 1
    {
      r := allocFn(calls, live, sz);
      calls := calls + 1;
      if r.Some? {
        live := live + {r.value};
      }
    }

    method Release(b: Block)
      requires b in live
      modifies this`live
      ensures live == old(live) - {b}
    {
      live := live - {b};
    }

    /** CopyMemory. */
    method Copy(dst: nat, src: nat, n: nat)
      modifies this`mem
      ensures Kept(old(mem), mem, Item(src, n), dst, n) && SameOutside(old(mem), mem, Item(dst, n))
    {
      var was := mem;
      mem := (a: nat) => if dst <= a < dst + n then was(src + (a - dst)) else was(a);
    }

    /** The part of MemLifoInit that follows the first allocation. */
    constructor (requested: Word, allocFn: (nat, set<Block>, nat) -> Option<Block>, c: Block)
      requires AllocatorOk(allocFn) && New(c, {}) && FirstChunk(requested) <= c.size
      ensures InOrder() && (Valid() <==> requested <= 0x7FFF_FFE8)
      ensures top.prev == Bottom && live == {c} && ledger == Page([Item(top.addr, MARK_SIZE)], Nothing)
      ensures top.chunks == Link(c, Nil) && top.big == Nil && this.allocFn == allocFn
          && chunkSize == RoundUp8(FirstChunk(requested))
    {
      RoundUpFits(FirstChunk(requested));
      this.allocFn := allocFn;
      chunkSize := RoundUp8(FirstChunk(requested));
      top := Mark(c.base + HEADER, Bottom, 0, Nil, Link(c, Nil), c.base + HEADER + MARK_SIZE);
      live, calls := {c}, 1;
      mem := (a: nat) => 0;
      ledger := Page([Item(c.base + HEADER, MARK_SIZE)], Nothing);
      new;
      InitOk(top, c);
    }

    /** MemLifoInit: nothing if the first chunk is not granted, otherwise an allocator with the
        bottom mark in that chunk. */
    static method Init(requested: Word, allocFn: (nat, set<Block>, nat) -> Option<Block>) returns (l: Lifo?)
      requires AllocatorOk(allocFn)
      ensures l == null <==> allocFn(0, {}, FirstChunk(requested)).None?
      ensures l != null ==>
          fresh(l) && l.InOrder() && (l.Valid() <==> requested <= 0x7FFF_FFE8) && l.top.prev == Bottom
          && l.top.chunks == Link(allocFn(0, {}, FirstChunk(requested)).value, Nil)
      ensures l != null ==>
          l.live == {allocFn(0, {}, FirstChunk(requested)).value} && l.top.big == Nil && l.allocFn == allocFn
    {
      hide Inv, Held, AllocatorOk, New;
      var c := allocFn(0, {}, FirstChunk(requested));
      if c.None? {
        return null;
      }
      Granted(allocFn, 0, {}, FirstChunk(requested));
      NewFacts(c.value, {});
      l := new Lifo(requested, allocFn, c.value);
    }

    /** MemLifoAlloc: from the head chunk, from a new chunk when little is left in it, or as a big
        block. `wantAll` stands for a non-null actual_szP. */
    method Alloc(sz: Word, wantAll: bool) returns (p: nat, actual: nat, ghost n: nat)
      requires Valid()
      modifies this`top, this`live, this`calls, this`ledger
      ensures Valid() && top.addr == old(top.addr) && top.prev == old(top.prev) && old(live) <= live
      ensures p == 0 ==> top == old(top) && live == old(live) && ledger == old(ledger)
      ensures p != 0 ==> top.lastAlloc == p && ledger == Own(old(ledger), Item(p, n)) && sz <= RoundUp8(sz) <= n
      ensures p != 0 && wantAll ==> actual == n
      ensures sz > MAX_ALLOC ==> p == 0
      ensures sz <= MAX_ALLOC && RoundUp8(sz) <= Room(old(top)) ==>
                top == old(top).(lastAlloc := p, freePtr := p + n) && p == old(top).freePtr && p != 0 &&
                live == old(live) && n == if wantAll then Room(old(top)) else RoundUp8(sz)
      ensures p != 0 && RoundUp8(sz) > Room(old(top)) ==>
                if Room(old(top)) < chunkSize / 8
                then
                  top.chunks.Link? && top.chunks.prev == old(top).chunks && top.big == old(top).big &&
                  n == RoundUp8(sz)
                else
                  top.big.Link? && top.big.prev == old(top).big && top.chunks == old(top).chunks &&
                  top.freePtr == old(top).freePtr
      ensures p == 0 <==> AllocFails(allocFn, chunkSize, old(calls), old(live), Room(old(top)), sz)
      ensures p != 0 && RoundUp8(sz) > Room(old(top)) ==>
                allocFn(old(calls), old(live), AskFor(chunkSize, Room(old(top)), RoundUp8(sz))) ==
                    Some(if Room(old(top)) < chunkSize / 8 then top.chunks.block else top.big.block)
    {
      hide Inv, AllocatorOk, New, Held, RoundUp8;
      InvFacts(top, ledger);
      RoundUpFits(sz);
      if sz > MAX_ALLOC {
        return 0, 0, 0;
      }
      var size := RoundUp8(sz);
      var end := End(top.chunks.block);
      n := size;
      if top.freePtr + size <= end {
        p, actual := top.freePtr, size;
        if wantAll {
          actual := end - top.freePtr;
          n := actual;
        }
        AllocHere(top, ledger, n);
        SameLists(top, top.(lastAlloc := p, freePtr := p + n));
        top := top.(lastAlloc := p, freePtr := p + actual);
      } else if end - top.freePtr < chunkSize / 8 {
        var request := (if size > chunkSize / 2 then size + chunkSize else chunkSize) + HEADER;
        var c := Obtain(request);
        if c.None? {
          return 0, 0, 0;
        }
        p, actual := c.value.base + HEADER, size;
        AllocChunk(top, ledger, c.value, n);
        HeldMore(top, top.(chunks := Link(c.value, top.chunks), lastAlloc := p, freePtr := p + n), c.value);
        NewFacts(c.value, live - {c.value});
        top := top.(chunks := Link(c.value, top.chunks), lastAlloc := p, freePtr := p + size);
      } else {
        var c := Obtain(size + HEADER);
        if c.None? {
          return 0, 0, 0;
        }
        p, actual := c.value.base + HEADER, c.value.size - HEADER;
        n := actual;
        AllocBig(top, ledger, c.value);
        HeldMore(top, top.(big := Link(c.value, top.big), lastAlloc := p), c.value);
        top := top.(big := Link(c.value, top.big), lastAlloc := p);
      }
      ledger := Own(ledger, Item(p, n));
    }

    /** MemLifoPushMark; the result is the handle of the new mark, 0 on failure. */
    method PushMark() returns (handle: nat)
      requires Valid()
      modifies this`top, this`live, this`calls, this`ledger
      ensures Valid() && old(live) <= live
      ensures handle == 0 ==> top == old(top) && live == old(live) && ledger == old(ledger)
      ensures handle != 0 ==> top.prev == On(old(top)) && top.addr == handle && top.lastAlloc == 0
      ensures handle != 0 ==> ledger == Page([Item(handle, MARK_SIZE)], old(ledger)) && top.big == old(top.big)
      ensures MARK_SIZE <= Room(old(top)) ==>
          handle == old(top).freePtr && handle != 0 && live == old(live) && top.chunks == old(top).chunks
      ensures handle != 0 && MARK_SIZE > Room(old(top)) ==> top.chunks.Link? && top.chunks.prev == old(top).chunks
      ensures handle == 0 <==> MARK_SIZE > Room(old(top)) && allocFn(old(calls), old(live), chunkSize).None?
      ensures handle != 0 && MARK_SIZE > Room(old(top)) ==>
                var c := top.chunks.block;
                allocFn(old(calls), old(live), chunkSize) == Some(c) && live == old(live) + {c}
                && calls == old(calls) + 1 && Room(top) == c.size - HEADER - MARK_SIZE
      ensures MARK_SIZE <= Room(old(top)) ==> calls == old(calls) && Room(top) == Room(old(top)) - MARK_SIZE
    {
      hide Inv, AllocatorOk, New, Held;
      InvFacts(top, ledger);
      var m := top;
      if m.freePtr + MARK_SIZE <= End(m.chunks.block) {
        handle := m.freePtr;
        PushHere(m, ledger);
        top := Mark(handle, On(m), 0, m.big, m.chunks, handle + MARK_SIZE);
        SameLists(m, top);
      } else {
        var c := Obtain(chunkSize);
        if c.None? {
          return 0;
        }
        NewFacts(c.value, old(live));
        handle := c.value.base + HEADER;
        PushChunk(m, ledger, c.value);
        top := Mark(handle, On(m), 0, m.big, Link(c.value, m.chunks), handle + MARK_SIZE);
        HeldMore(m, top, c.value);
      }
      ledger := Page([Item(handle, MARK_SIZE)], ledger);
    }

    /** Frees the blocks in front of `end`. */
    method FreeDownTo(list: List, end: List, ghost rest: set<Block>)
      requires Extends(list, end) && NoRepeat(list) && Blocks(list) !! rest && live == Blocks(list) + rest
      modifies this`live
      ensures live == Blocks(end) + rest
    {
      var c := list;
      while c != end
        invariant Extends(c, end) && NoRepeat(c) && Blocks(c) !! rest && live == Blocks(c) + rest
        decreases c
      {
        Release(c.block);
        c := c.prev;
      }
    }

    /** MemLifoPopMark of the top mark: what the mark below had is exactly what there is again. */
    method PopMark()
      requires Valid()
      modifies this`top, this`live, this`ledger
      ensures Valid() && live <= old(live)
      ensures old(top.prev).On? ==> top == old(top).prev.mark && ledger == old(ledger).below
      ensures old(top.prev).Bottom? ==> top == old(top) && ledger == old(ledger) && live == old(live)
    {
      hide AllocatorOk, MarkOk;
      var m := top;
      var n := if m.prev.On? then m.prev.mark else m;
      PopFacts(m, ledger);
      ghost var g := if m.prev.On? then ledger.below else ledger;
      if m.big != n.big || m.chunks != n.chunks {
        FreeDownTo(m.big, n.big, Blocks(m.chunks));
        FreeDownTo(m.chunks, n.chunks, Blocks(n.big));
      }
      top := n;
      ledger := g;
    }

    /** MemLifoPushFrame: a mark and an allocation under it, or nothing. */
    method PushFrame(sz: Word, wantAll: bool) returns (p: nat, actual: nat, ghost n: nat)
      requires Valid()
      modifies this`top, this`live, this`calls, this`ledger
      ensures Valid()
      ensures p == 0 ==> top == old(top) && live == old(live) && ledger == old(ledger)
      ensures p != 0 ==> top.prev == On(old(top)) && top.lastAlloc == p && sz <= n
      ensures p != 0 ==> ledger == Page([Item(top.addr, MARK_SIZE), Item(p, n)], old(ledger))
      ensures p != 0 && wantAll ==> actual == n
      ensures sz <= MAX_ALLOC && RoundUp8(sz) + MARK_SIZE <= Room(old(top)) ==>
          p == old(top).freePtr + MARK_SIZE && live == old(live)
      ensures p == 0 <==> FrameFails(allocFn, chunkSize, old(calls), old(live), Room(old(top)), sz)
    {
      hide Inv, AllocatorOk, New, Held, RoundUp8;
      p, actual, n := 0, 0, 0;
      if sz > MAX_ALLOC {
        return;
      }
      InvFacts(top, ledger);
      RoundUpFits(sz);
      RoundUpFits(RoundUp8(sz));
      var m := top;
      var size := RoundUp8(sz);
      var total := size + MARK_SIZE;
      if m.freePtr + total <= End(m.chunks.block) {
        PushHere(m, ledger);
        var mark := Mark(m.freePtr, On(m), 0, m.big, m.chunks, m.freePtr + MARK_SIZE);
        p, actual := m.freePtr + MARK_SIZE, size;
        if wantAll {
          actual := End(m.chunks.block) - p;
        }
        n := actual;
        AllocHere(mark, Page([Item(m.freePtr, MARK_SIZE)], ledger), n);
        top := mark.(lastAlloc := p, freePtr := p + actual);
        SameLists(m, top);
        assert [Item(m.freePtr, MARK_SIZE)] + [Item(p, n)] == [Item(m.freePtr, MARK_SIZE), Item(p, n)];
        ledger := Page([Item(m.freePtr, MARK_SIZE), Item(p, n)], ledger);
        return;
      }
      var mark := PushMark();
      if mark != 0 {
        p, actual, n := Alloc(size, wantAll);
        if p != 0 {
          return;
        }
        PopMark();
        RestoredLive(old(top), top, old(live), live);
      }
    }

    /** The part of ExpandLast that stays in place, once the signed test has let it through. */
    method ExpandHere(incr: Word) returns (ghost n: nat)
      requires Valid() && top.lastAlloc != 0 && !IsBig(top) && Signed(RoundUp32(incr)) <= Room(top)
      modifies this`top, this`ledger
      ensures top == old(top).(freePtr := old(top.freePtr) + RoundUp32(incr))
      ensures incr <= GROWABLE ==> Valid() && old(ledger).own != [] && LastItem(old(ledger)).size + incr <= n
      ensures incr <= GROWABLE ==>
          ledger == Relast(old(ledger), Item(top.lastAlloc, n)) && LastItem(old(ledger)).addr == top.lastAlloc
      ensures incr > GROWABLE ==> (FreeOk(top) <==> incr > 0xFFFF_FFF8) && ledger == old(ledger)
      ensures incr > 0xFFFF_FFF8 ==> Valid() && top == old(top) && ledger == old(ledger) && n == OldSize(top)
    {
      hide Inv, AllocatorOk, New, Held, RoundUp8, RoundUp32, Signed;
      InvFacts(top, ledger);
      LastSize(top, ledger);
      Rounded(incr);
      n := OldSize(top);
      if incr <= GROWABLE {
        n := top.freePtr + RoundUp32(incr) - top.lastAlloc;
        ResizeHere(top, ledger, n);
        ledger := Relast(ledger, Item(top.lastAlloc, n));
      }
      SameLists(top, top.(freePtr := top.freePtr + RoundUp32(incr)));
      top := top.(freePtr := top.freePtr + RoundUp32(incr));
    }

    /** MemLifoExpandLast. The in-place test compares a DWORD as a signed int, and the new size of a
        big block is computed modulo 2^32, as in the source. */
    method ExpandLast(incr: Word, fix: bool) returns (p: nat, ghost n: nat)
      requires Valid()
      modifies this`top, this`live, this`calls, this`mem, this`ledger
      // refused, or grown with its bytes kept
      ensures KeepsExpand(old(top), incr, fix) ==> Valid() && top.addr == old(top.addr) && top.prev == old(top.prev)
      ensures KeepsExpand(old(top), incr, fix) && p == 0 ==>
                top == old(top) && live == old(live) && ledger == old(ledger) && mem == old(mem)
      ensures old(top.lastAlloc) == 0 ==>
                mem == old(mem)
                    && (p != 0 ==> ledger == Own(old(ledger), Item(p, n)) && incr <= n && top.lastAlloc == p)
      ensures KeepsExpand(old(top), incr, fix) && p != 0 && old(top.lastAlloc) != 0 ==>
                top.lastAlloc == p && (fix ==> p == old(top.lastAlloc)) &&
                Resized(old(ledger), ledger, old(mem), mem, p, n)
      ensures CanExpand(old(top), incr, fix) && p != 0 && old(top.lastAlloc) != 0 ==> OldSize(old(top)) + incr <= n
      ensures old(top.lastAlloc) != 0 && p != 0 && IsBig(old(top)) ==>
                && old(top.big.Link?) && top.big.Link? && p == top.big.block.base + HEADER
                && top == old(top).(big := Link(top.big.block, old(top.big.prev)), lastAlloc := p)
                && live == old(live) - {old(top.big.block)} + {top.big.block}
      ensures !IsBig(old(top)) ==> old(live) <= live
      ensures CanExpand(old(top), incr, fix) || IsBig(old(top)) ==>
                (p == 0 <==> ExpandFails(allocFn, chunkSize, old(calls), old(live), old(top), incr, fix))
      ensures old(top.lastAlloc) != 0 && !IsBig(old(top)) && incr <= GROWABLE && RoundUp8(incr) <= Room(old(top)) ==>
                p == old(top.lastAlloc) && live == old(live)
                    && top == old(top).(freePtr := old(top.freePtr) + RoundUp8(incr))
      ensures old(top.lastAlloc) != 0 && fix && IsBig(old(top)) ==> p == 0
      ensures old(top.lastAlloc) != 0 && fix && incr <= GROWABLE && RoundUp8(incr) > Room(old(top)) ==> p == 0
      // and what happens otherwise: in a chunk the free pointer is moved although there is no room
      ensures !CanExpand(old(top), incr, fix) && !IsBig(old(top)) ==>
                p == old(top.lastAlloc) && top == old(top).(freePtr := old(top.freePtr) + RoundUp32(incr)) &&
                ledger == old(ledger) && (FreeOk(top) <==> incr > 0xFFFF_FFF8)
      // and a big block is replaced by one asked for with no more than its old size
      ensures !CanExpand(old(top), incr, fix) && IsBig(old(top)) ==>
                (p == 0 ==> top == old(top) && live == old(live) && ledger == old(ledger) && mem == old(mem)) &&
                (p != 0 ==>
                    top.big.Link? && allocFn(old(calls), old(live), Request(old(top), incr) + HEADER) ==
                    Some(top.big.block) &&
                            Request(old(top), incr) <= OldSize(old(top)) && 0 <= OldSize(old(top)) &&
                            SameOutside(old(mem), mem, Item(p, OldSize(old(top)))))
      // so success is what it should be under this condition and no other
      ensures old(top.lastAlloc) != 0 && p != 0 ==>
                (CanExpand(old(top), incr, fix) <==> Valid() && AtLeast(ledger, OldSize(old(top)) + incr))
    {
      hide Inv, AllocatorOk, New, Held, RoundUp8, RoundUp32, Signed, FreeOk, Kept, SameOutside, Request, Room,
          AllocFails;
      InvFacts(top, ledger);
      var m := top;
      p, n := m.lastAlloc, 0;
      if p == 0 {
        var actual;
        p, actual, n := Alloc(incr, false);
        return;
      }
      LastSize(m, ledger);
      Rounded(incr);
      RoomIs(m);
      RequestIs(m, incr);
      UnchangedMem(mem, ledger);
      var more := RoundUp32(incr);
      var isBig := IsBig(m);
      if !isBig && End(m.chunks.block) - m.freePtr >= Signed(more) {
        n := ExpandHere(incr);
        TooLargeToGrow(top, ledger, OldSize(m) + incr, incr);
        return;
      }
      if fix {
        return 0, 0;
      }
      p, n := MoveLast(more, isBig);
      if p != 0 && OldSize(m) <= n {
        OutsideMore(old(mem), mem, Item(p, OldSize(m)), n);
      }
      TooLargeToGrow(top, ledger, OldSize(m) + incr, incr);
    }

    /** The part of ExpandLast that moves the last allocation. */
    method MoveLast(more: Word, isBig: bool) returns (p: nat, ghost n: nat)
      requires Valid() && top.lastAlloc != 0 && isBig == IsBig(top) && (!isBig ==> more < 0x8000_0000)
      modifies this`top, this`live, this`calls, this`mem, this`ledger
      ensures Valid() && top.addr == old(top.addr) && top.prev == old(top.prev)
      ensures (OldSize(old(top)) + more) % WORD > MAX_ALLOC ==> p == 0
      ensures p == 0 <==>
          MoveFails(allocFn, chunkSize, old(calls), old(live), old(top), (OldSize(old(top)) + more) % WORD)
      ensures p == 0 ==> top == old(top) && live == old(live) && ledger == old(ledger) && mem == old(mem)
      ensures p != 0 ==> top.lastAlloc == p && old(ledger).own != [] && ledger == Relast(old(ledger), Item(p, n))
      ensures p != 0 ==> (OldSize(old(top)) + more) % WORD <= n && 0 <= OldSize(old(top))
      ensures p != 0 ==> Kept(old(mem), mem, LastItem(old(ledger)), p, LastItem(old(ledger)).size)
      ensures p != 0 ==> SameOutside(old(mem), mem, Item(p, OldSize(old(top))))
      ensures p != 0 && isBig ==>
                top.big.Link? && allocFn(old(calls), old(live), (OldSize(old(top)) + more) % WORD + HEADER) ==
                    Some(top.big.block)
      ensures p != 0 && isBig ==>
                && old(top.big.Link?) && p == top.big.block.base + HEADER
                && top == old(top).(big := Link(top.big.block, old(top.big.prev)), lastAlloc := p)
                && live == old(live) - {old(top.big.block)} + {top.big.block}
      ensures !isBig ==> old(live) <= live
    {
      hide Inv, AllocatorOk, New, Held, Kept, SameOutside;
      var m := top;
      LastSize(m, ledger);
      p, n := 0, 0;
      var oldSize := if isBig then m.big.block.size - HEADER else m.freePtr - m.lastAlloc;
      var sz := (oldSize + more) % WORD;
      if sz > MAX_ALLOC {
        return;
      }
      ghost var g := ledger;
      if isBig {
        var c := Obtain(sz + HEADER);
        if c.None? {
          return;
        }
        NewFacts(c.value, old(live));
        p, n := c.value.base + HEADER, c.value.size - HEADER;
        Copy(p, m.lastAlloc, oldSize);
        ReplaceBig(m, ledger, c.value);
        top := m.(big := Link(c.value, m.big.prev), lastAlloc := p);
        Release(m.big.block);
        SwapLive(old(live), m.big.block, c.value);
      } else {
        var actual;
        p, actual, n := Alloc(sz, false);
        if p == 0 {
          return;
        }
        Copy(p, m.lastAlloc, oldSize);
        ForgetMoved(top, ledger, |g.own| - 1);
      }
      ledger := Relast(g, Item(p, n));
      assert ledger == Page((g.own + [Item(p, n)])[..|g.own| - 1] + (g.own + [Item(p, n)])[|g.own|..], g.below);
    }

    /** MemLifoShrinkLast: never moves the block. */
    method ShrinkLast(decr: Word, fix: bool) returns (p: nat)
      requires Valid()
      modifies this`top, this`ledger
      ensures Valid() && p == old(top.lastAlloc)
      ensures top == old(top).(freePtr := top.freePtr)
      ensures p == 0 || IsBig(old(top)) || RoundDown(decr) > LastItem(old(ledger)).size ==>
          top == old(top) && ledger == old(ledger)
      ensures p != 0 && !IsBig(old(top)) && RoundDown(decr) <= LastItem(old(ledger)).size ==>
                old(ledger).own != [] && ledger ==
                    Relast(old(ledger), Item(p, LastItem(old(ledger)).size - RoundDown(decr)))
      // in numbers: the caller keeps what it did not give up, and loses less than 8 bytes of it
      ensures p != 0 && !IsBig(old(top)) && decr < LastItem(old(ledger)).size + 8 ==>
                var less := LastItem(old(ledger)).size - LastItem(ledger).size;
                less % 8 == 0 && 0 <= decr - less < 8 && top.freePtr == old(top.freePtr) - less
      ensures p != 0 && !IsBig(old(top)) && decr >= LastItem(old(ledger)).size + 8 ==>
                top == old(top) && ledger == old(ledger)
    {
      hide Inv, AllocatorOk, New, Held, RoundDown;
      InvFacts(top, ledger);
      p := top.lastAlloc;
      if p == 0 {
        return;
      }
      LastSize(top, ledger);
      RoundedDown(decr);
      if !IsBig(top) {
        var oldSize := top.freePtr - p;
        var less := RoundDown(decr);
        if less <= oldSize {
          ResizeHere(top, ledger, oldSize - less);
          SameLists(top, top.(freePtr := top.freePtr - less));
          ledger := Relast(ledger, Item(p, oldSize - less));
          top := top.(freePtr := top.freePtr - less);
        }
      }
    }

    /** The part of ResizeLast that cuts a block in a chunk down in place. */
    method CutHere(oldSize: nat, size: nat)
      requires Valid() && top.lastAlloc != 0 && !IsBig(top) && oldSize == OldSize(top) && size <= oldSize
          && size % 8 == 0
      modifies this`top, this`ledger
      ensures Valid() && top == old(top).(freePtr := old(top.lastAlloc) + size)
      ensures old(ledger).own != [] && ledger == Relast(old(ledger), Item(old(top.lastAlloc), size))
      ensures AtLeast(ledger, size) && !AtLeast(ledger, size + 1)
    {
      hide Inv, AllocatorOk, New, Held;
      LastSize(top, ledger);
      ResizeHere(top, ledger, size);
      SameLists(top, top.(freePtr := top.lastAlloc + size));
      ledger := Relast(ledger, Item(top.lastAlloc, size));
      top := top.(freePtr := top.freePtr - (oldSize - size));
    }

    /** The part of ResizeLast that asks for more. */
    method ResizeUp(newSize: Word, fix: bool, oldSize: nat) returns (p: nat, ghost n: nat)
      requires Valid() && top.lastAlloc != 0 && oldSize == OldSize(top) && oldSize < RoundUp32(newSize)
      modifies this`top, this`live, this`calls, this`mem, this`ledger
      ensures CanResize(old(top), newSize) ==> Valid() && top.addr == old(top.addr) && top.prev == old(top.prev)
      ensures CanResize(old(top), newSize) && p == 0 ==>
                top == old(top) && live == old(live) && ledger == old(ledger) && mem == old(mem)
      ensures CanResize(old(top), newSize) && p != 0 ==>
                top.lastAlloc == p && (fix ==> p == old(top.lastAlloc)) && newSize <= n
                    && Resized(old(ledger), ledger, old(mem), mem, p, n)
      ensures CanResize(old(top), newSize) && newSize > GROWABLE ==> p == 0
      ensures CanResize(old(top), newSize) ==>
                (p == 0 <==> ExpandFails(allocFn, chunkSize, old(calls), old(live), old(top),
                    RoundUp32(newSize) - oldSize, fix))
      ensures newSize <= 0xFFFF_FFF8
      ensures !CanResize(old(top), newSize) ==>
                p == old(top.lastAlloc) && top == old(top).(freePtr := p + RoundUp32(newSize)) && !FreeOk(top)
      ensures p != 0 ==> (CanResize(old(top), newSize) <==> Valid() && AtLeast(ledger, newSize))
    {
      hide Inv, AllocatorOk, New, Held, RoundUp8, RoundUp32, Signed, FreeOk, Kept, SameOutside, Request, Room,
          CanExpand, CanResize, ExpandFails, Resized, AtLeast;
      var m := top;
      LastSize(m, ledger);
      OldSizeIs(m);
      Rounded(newSize);
      RoundedAlready(RoundUp32(newSize) - oldSize);
      ResizeIsExpand(m, newSize, fix);
      p, n := ExpandLast(RoundUp32(newSize) - oldSize, fix);
      TooLargeToGrow(top, ledger, newSize, newSize);
      LessIsThere(ledger, RoundUp32(newSize), newSize);
    }

    /** MemLifoResizeLast. */
    method ResizeLast(newSize: Word, fix: bool) returns (p: nat, ghost n: nat)
      requires Valid()
      modifies this`top, this`live, this`calls, this`mem, this`ledger
      // refused, or resized with its bytes kept
      ensures KeepsResize(old(top), newSize) ==> Valid() && top.addr == old(top.addr) && top.prev == old(top.prev)
      ensures KeepsResize(old(top), newSize) && p == 0 ==>
                top == old(top) && live == old(live) && ledger == old(ledger) && mem == old(mem)
      ensures old(top.lastAlloc) == 0 ==> p == 0
      ensures KeepsResize(old(top), newSize) && p != 0 ==>
                top.lastAlloc == p && (fix ==> p == old(top.lastAlloc)) &&
                Resized(old(ledger), ledger, old(mem), mem, p, n)
      ensures CanResize(old(top), newSize) && p != 0 ==> newSize <= n
      ensures CanResize(old(top), newSize) && p != 0 && newSize <= OldSize(old(top)) ==>
                top == old(top).(freePtr := top.freePtr) &&
                if IsBig(old(top)) then n == OldSize(old(top)) else n < newSize + 8 && top.freePtr == p + n
      ensures CanResize(old(top), newSize) && old(top.lastAlloc) != 0 ==>
                (p == 0 <==> OldSize(old(top)) < RoundUp32(newSize) && ExpandFails(allocFn, chunkSize, old(calls),
                    old(live), old(top), RoundUp32(newSize) - OldSize(old(top)), fix))
      ensures CanResize(old(top), newSize) && newSize > GROWABLE && RoundUp32(newSize) > OldSize(old(top)) ==> p == 0
      // and what happens otherwise: above 0xFFFFFFF8 the rounded size is 0, and a block in a chunk
      // is cut down to nothing; below, the free pointer is moved although there is no room
      ensures !CanResize(old(top), newSize) && newSize > 0xFFFF_FFF8 ==>
                Valid() && p == old(top.lastAlloc) && mem == old(mem) && live == old(live) && old(ledger).own != [] &&
                if IsBig(old(top)) then top == old(top) && ledger == old(ledger)
                else top == old(top).(freePtr := p) && ledger == Relast(old(ledger), Item(p, 0))
      ensures !CanResize(old(top), newSize) && newSize <= 0xFFFF_FFF8 ==>
                p == old(top.lastAlloc) && top == old(top).(freePtr := p + RoundUp32(newSize)) && !FreeOk(top)
      // so success is what it should be under this condition and no other
      ensures p != 0 ==> (CanResize(old(top), newSize) <==> Valid() && AtLeast(ledger, newSize))
    {
      hide Inv, AllocatorOk, New, Held, RoundUp8, RoundUp32, FreeOk, Kept, SameOutside, Request, Room, Signed,
          CanExpand, ExpandFails;
      InvFacts(top, ledger);
      p, n := top.lastAlloc, 0;
      if p == 0 {
        return;
      }
      var m := top;
      LastSize(m, ledger);
      Rounded(newSize);
      UnchangedMem(mem, ledger);
      var size := RoundUp32(newSize);
      var oldSize;
      if IsBig(top) {
        oldSize := top.big.block.size - HEADER;
      } else {
        oldSize := top.freePtr - p;
        if size <= oldSize {
          CutHere(oldSize, size);
          n := size;
          ShrunkMem(mem, old(ledger), n);
          return;
        }
      }
      if oldSize >= size {
        p := ShrinkLast(oldSize - size, fix);
        n := oldSize;
        SameLast(ledger, Item(p, n));
      } else {
        p, n := ResizeUp(newSize, fix, oldSize);
      }
    }
  }

  lemma LessIsThere(g: Ledger, n: int, m: int)
    requires m <= n
    ensures AtLeast(g, n) ==> AtLeast(g, m)
  {
  }

  lemma RoundedDown(x: nat)
    ensures 0 <= x - RoundDown(x) < 8 && RoundDown(x) % 8 == 0
  {
    assert RoundDown(x) == 8 * (x / 8);
  }

  /** What is asked for: a chunk when less than an eighth of the chunk size is left, with a whole chunk
      size to spare for a request of more than half of that; otherwise a block just for the request,
      which then is more than an eighth. */
  lemma AskForMeans(chunkSize: Word, room: int, size: nat)
    requires chunkSize % 8 == 0 && room < size
    ensures 8 * room < chunkSize && 2 * size > chunkSize ==> AskFor(chunkSize, room, size) == chunkSize + size + HEADER
    ensures 8 * room < chunkSize && 2 * size <= chunkSize ==> AskFor(chunkSize, room, size) == chunkSize + HEADER
    ensures 8 * room >= chunkSize ==> AskFor(chunkSize, room, size) == size + HEADER && 8 * size > chunkSize
    ensures size + HEADER <= AskFor(chunkSize, room, size)
  {
  }

  lemma OldSizeIs(m: Mark)
    ensures !IsBig(m) ==> m.lastAlloc + OldSize(m) == m.freePtr
  {
  }

  lemma RoomIs(m: Mark)
    requires m.chunks.Link?
    ensures Room(m) == End(m.chunks.block) - m.freePtr
  {
  }

  lemma UnchangedMem(mem: nat -> int, g: Ledger)
    requires g.Page? && g.own != []
    ensures SameOutside(mem, mem, LastItem(g)) && Kept(mem, mem, LastItem(g), LastItem(g).addr, LastItem(g).size)
    ensures forall n: nat :: SameOutside(mem, mem, Item(LastItem(g).addr, n))
  {
  }

  lemma ShrunkMem(mem: nat -> int, g: Ledger, n: nat)
    requires g.Page? && g.own != [] && n <= LastItem(g).size
    ensures SameOutside(mem, mem, Item(LastItem(g).addr, n)) && Kept(mem, mem, LastItem(g), LastItem(g).addr, n)
  {
  }

  /** When the size computed for a big block is small enough to be asked for although the increment
      is too large: exactly when the sum, or the rounding, has wrapped. It is then not above the old
      size. */
  lemma RequestIs(m: Mark, incr: Word)
    requires 0 <= OldSize(m) < 0x8000_0000 && OldSize(m) % 8 == 0
    ensures Request(m, incr) == (OldSize(m) + RoundUp32(incr)) % WORD
    ensures incr <= GROWABLE ==> Request(m, incr) == OldSize(m) + RoundUp32(incr)
    ensures incr > GROWABLE ==>
              (Request(m, incr) <= MAX_ALLOC <==> incr > 0xFFFF_FFF8 || OldSize(m) + RoundUp32(incr) >= WORD)
    ensures incr > GROWABLE && Request(m, incr) <= MAX_ALLOC ==> Request(m, incr) <= OldSize(m)
    ensures GROWABLE < incr <= 0xFFFF_FFF8 && Request(m, incr) <= MAX_ALLOC ==> Request(m, incr) < OldSize(m)
    ensures incr == 0xFFFF_FFF8 && OldSize(m) >= 8 ==> Request(m, incr) == OldSize(m) - 8
  {
    hide RoundUp32, OldSize;
    Rounded(incr);
    if incr == 0xFFFF_FFF8 { RoundedAlready(incr); }
  }

  /** Inputs that fail: a big block to be grown by 0xFFFFFFF8 bytes is moved to a block asked for with
      8 bytes less, and a resize to 0xFFFFFFFF is one to nothing. */
  lemma WrappedInputs(m: Mark)
    requires m.lastAlloc != 0 && 8 <= OldSize(m) < 0x8000_0000 && OldSize(m) % 8 == 0
    ensures IsBig(m) ==> !CanExpand(m, 0xFFFF_FFF8, false) && Request(m, 0xFFFF_FFF8) == OldSize(m) - 8
    ensures !CanResize(m, 0xFFFF_FFFF) && RoundUp32(0xFFFF_FFFF) == 0
  {
    hide OldSize, IsBig;
    RequestIs(m, 0xFFFF_FFF8);
    Rounded(0xFFFF_FFFF);
  }

  /** The size asked for stays below 2^32 whatever is requested exactly for chunk sizes up to 0x7FFFFFE8;
      with one of 0x7FFFFFF0 and the largest request it is 2^32, which the source's DWORD makes 0. */
  lemma AskForFits(chunkSize: Word)
    requires chunkSize % 8 == 0 && chunkSize < 0x8000_0000
    ensures (forall room: int, sz: nat :: sz <= MAX_ALLOC ==> AskFor(chunkSize, room, RoundUp8(sz)) < WORD)
        <==> chunkSize <= 0x7FFF_FFE8
    ensures AskFor(0x7FFF_FFF0, 0, RoundUp8(MAX_ALLOC)) == WORD
  {
    forall room: int, sz: nat | sz <= MAX_ALLOC && chunkSize <= 0x7FFF_FFE8
      ensures AskFor(chunkSize, room, RoundUp8(sz)) < WORD
    {
      RoundUpFits(sz);
      assert RoundUp8(sz) <= 0x8000_0000;
    }
    assert RoundUp8(MAX_ALLOC) == 0x8000_0000;
    if chunkSize > 0x7FFF_FFE8 {
      assert chunkSize >= 0x7FFF_FFF0;
      assert AskFor(chunkSize, 0, RoundUp8(MAX_ALLOC)) >= WORD;
    }
  }

  lemma RoundedAlready(x: Word)
    requires x % 8 == 0
    ensures RoundUp32(x) == x
  {
    assert (x + 7) / 8 == x / 8;
  }

  /** Resizing to more is treated as meant exactly when expanding by the difference is. */
  lemma ResizeIsExpand(m: Mark, newSize: Word, fix: bool)
    requires m.lastAlloc != 0 && 0 <= OldSize(m) < RoundUp32(newSize) && OldSize(m) % 8 == 0 && OldSize(m) < 0x8000_0000
    ensures CanExpand(m, RoundUp32(newSize) - OldSize(m), fix) <==> CanResize(m, newSize)
    ensures newSize <= 0xFFFF_FFF8 && newSize <= RoundUp32(newSize)
    ensures !CanResize(m, newSize) ==> !IsBig(m) && RoundUp32(newSize) - OldSize(m) > GROWABLE
  {
    hide OldSize, RoundUp32, RoundUp8, Signed, IsBig;
    Rounded(newSize);
    RoundedAlready(RoundUp32(newSize) - OldSize(m));
  }

  lemma TooLargeToGrow(m: Mark, g: Ledger, n: int, x: int)
    ensures x > GROWABLE && n >= x && m.lastAlloc != 0 ==> !(Inv(m, g) && AtLeast(g, n))
  {
    if Inv(m, g) && m.lastAlloc != 0 { LastIsGrowable(m, g); }
  }

  lemma RoundUpFits(x: nat)
    ensures x <= RoundUp8(x) < x + 8 && RoundUp8(x) % 8 == 0
  {
    assert RoundUp8(x) == 8 * ((x + 7) / 8);
  }

  lemma Rounded(x: Word)
    ensures RoundUp32(x) % 8 == 0 && 0 <= RoundUp8(x) && RoundUp8(x) % 8 == 0
    ensures x <= GROWABLE ==> x <= RoundUp32(x) == RoundUp8(x) <= GROWABLE && Signed(RoundUp32(x)) == RoundUp32(x)
    ensures GROWABLE < x <= 0xFFFF_FFF8 ==> 0x8000_0000 <= RoundUp32(x) && Signed(RoundUp32(x)) < 0
    ensures x > 0xFFFF_FFF8 ==> RoundUp32(x) == 0 == Signed(RoundUp32(x))
    ensures x <= 0xFFFF_FFF8 ==> x <= RoundUp32(x) < x + 8
  {
    var k := (x + 7) / 8;
    assert RoundUp8(x) == 8 * k && x <= 8 * k < x + 8;
    if x > 0xFFFF_FFF8 {
      assert k == 0x2000_0000;
    }
  }

  /** The in-place test of ExpandLast reads the increment as a signed int. For a room below 2 GB it
      lets through an increment that does not fit exactly when that is between these bounds. */
  lemma SignedTest(room: nat, incr: Word)
    requires room < 0x8000_0000
    ensures Signed(RoundUp32(incr)) <= room < RoundUp32(incr) <==> GROWABLE < incr <= 0xFFFF_FFF8
    ensures Signed(RoundUp32(0x8000_0000)) <= 0 < RoundUp32(0x8000_0000)
  {
    var k := (incr + 7) / 8;
    assert RoundUp8(incr) == 8 * k && incr <= 8 * k < incr + 8;
    if incr > 0xFFFF_FFF8 {
      assert k == 0x2000_0000;
    }
  }

  /** Success of ExpandLast by more than GROWABLE never means that the block has grown: no last
      allocation is that large. */
  lemma LastIsGrowable(m: Mark, g: Ledger)
    requires Inv(m, g) && m.lastAlloc != 0
    ensures g.Page? && g.own != [] && LastItem(g).size <= GROWABLE
  {
    LastSize(m, g);
  }

  lemma OutsideMore(mem: nat -> int, mem': nat -> int, x: Item, n: nat)
    requires SameOutside(mem, mem', x) && x.size <= n
    ensures SameOutside(mem, mem', Item(x.addr, n))
  {
  }

  lemma SwapLive(live: set<Block>, b: Block, c: Block)
    requires c !in live && b in live
    ensures live + {c} - {b} == live - {b} + {c}
  {
  }

  lemma SameLast(g: Ledger, x: Item)
    requires g.Page? && g.own != [] && LastItem(g) == x
    ensures Relast(g, x) == g
  {
  }

  /** The first `n` bytes of `x` are now found at `p`. */
  ghost predicate Kept(mem: nat -> int, mem': nat -> int, x: Item, p: nat, n: nat) {
    forall i: nat {:trigger mem'(p + i)} :: i < n ==> mem'(p + i) == mem(x.addr + i)
  }

  ghost predicate SameOutside(mem: nat -> int, mem': nat -> int, x: Item) {
    forall a: nat {:trigger mem'(a)} :: a < x.addr || x.addr + x.size <= a ==> mem'(a) == mem(a)
  }

  /** The last item is the last allocation, and its size is what the source computes. */
  lemma LastSize(m: Mark, g: Ledger)
    requires Inv(m, g) && m.lastAlloc != 0
    ensures g.Page? && |g.own| >= 2 && LastItem(g).addr == m.lastAlloc && m.lastAlloc % 8 == 0 && m.freePtr % 8 == 0
        && m.chunks.Link?
    ensures LastItem(g).size == (if IsBig(m) then m.big.block.size - HEADER else m.freePtr - m.lastAlloc)
    ensures IsBig(m) ==> m.big.block in Held(m) && LastItem(g).size < 0x8000_0000
    ensures !IsBig(m) ==> m.chunks.block.base + HEADER <= m.lastAlloc <= m.freePtr <= End(m.chunks.block)
    ensures LastItem(g).size % 8 == 0 && LastItem(g).size < 0x8000_0000
  {
    hide Packed, Extends, Housed, NoRepeat, Sound, Held, Blocks, Flat;
    HeadOk(m);
    if IsBig(m) {
      BigHeadOk(m);
    }
  }

  lemma BigHeadOk(m: Mark)
    requires m.big.Link? && Sound(Held(m))
    ensures BlockOk(m.big.block) && m.big.block in Held(m)
  {
    assert m.big.block in Blocks(m.big);
  }

  /** Why popping frees exactly what came after the mark below. */
  lemma PopFacts(m: Mark, g: Ledger)
    requires Inv(m, g)
    ensures ListsOk(m) && g.Page?
    ensures m.prev.On? ==> Held(m.prev.mark) <= Held(m) && Blocks(m.prev.mark.big) !! Blocks(m.chunks)
  {
    if m.prev.On? {
      ExtendsBlocks(m.chunks, m.prev.mark.chunks);
      ExtendsBlocks(m.big, m.prev.mark.big);
    }
  }

  lemma RestoredLive(m: Mark, n: Mark, live: set<Block>, live': set<Block>)
    requires m == n && live == Held(m) && live' == Held(n)
    ensures live == live'
  {
  }

  lemma InitOk(m: Mark, c: Block)
    requires New(c, {}) && 1000 <= c.size
    requires m == Mark(c.base + HEADER, Bottom, 0, Nil, Link(c, Nil), c.base + HEADER + MARK_SIZE)
    ensures Inv(m, Page([Item(m.addr, MARK_SIZE)], Nothing)) && Held(m) == {c}
  {
    var x := Item(m.addr, MARK_SIZE);
    InitLists(m, c);
    InitPacked(m, c, x);
  }

  lemma InitLists(m: Mark, c: Block)
    requires New(c, {}) && m.chunks == Link(c, Nil) && m.big == Nil
    ensures Blocks(m.chunks) == {c} == Held(m) && ListsOk(m)
  {
    assert Blocks(Nil) == {};
    assert Blocks(m.chunks) == {c};
  }

  lemma InitPacked(m: Mark, c: Block, x: Item)
    requires x == Item(m.addr, MARK_SIZE) && m.addr == c.base + HEADER && m.chunks == Link(c, Nil)
        && MARK_SIZE + HEADER <= c.size
    requires m.freePtr == m.addr + MARK_SIZE && Held(m) == {c}
    ensures Flat(Page([x], Nothing)) == [x] && Housed(x, {c}) && Packed([x], {c}, FreeArea(m))
  {
    hide Held;
    assert Inside(x, c);
    assert Flat(Nothing) == [];
  }

  lemma HeadOk(m: Mark)
    requires m.chunks.Link? && Sound(Held(m))
    ensures BlockOk(m.chunks.block)
  {
    assert m.chunks.block in Held(m);
  }

  lemma InvFacts(m: Mark, g: Ledger)
    requires Inv(m, g)
    ensures FreeOk(m) && g.Page? && m.chunks.block.base > 0 && End(m.chunks.block) % 8 == 0
        && End(m.chunks.block) - m.freePtr < 0x8000_0000
    ensures m.chunks.Link? && m.freePtr <= End(m.chunks.block)
    ensures g.own != []
    ensures m.lastAlloc != 0 ==> |g.own| >= 2
  {
    hide Packed, Extends, Housed, NoRepeat, Sound, Held, Blocks, Flat;
    HeadOk(m);
  }

  lemma HeldMore(m: Mark, m': Mark, b: Block)
    requires (m'.chunks == Link(b, m.chunks) && m'.big == m.big) || (m'.big == Link(b, m.big) && m'.chunks == m.chunks)
    ensures Held(m') == Held(m) + {b}
  {
  }
}

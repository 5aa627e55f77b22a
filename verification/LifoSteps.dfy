/** What each elementary step of the mark/release allocator does to a mark in order: it stays in
    order, together with everything handed out so far. */
module LifoSteps {
  import opened LifoState

  /** A block is new: well-formed and apart from everything live. */
  ghost predicate New(b: Block, live: set<Block>) {
    BlockOk(b) && b !in live && forall c :: c in live ==> Apart(c, b)
  }

  function Own(g: Ledger, x: Item): Ledger
    requires g.Page?
  {
    Page(g.own + [x], g.below)
  }

  lemma SoundAdd(live: set<Block>, b: Block)
    requires Sound(live) && New(b, live)
    ensures Sound(live + {b})
  {
  }

  /** An address in the head chunk is not the address of the first big block's payload. */
  lemma ChunkNotBig(m: Mark, a: nat)
    requires ListsOk(m) && m.chunks.Link? && m.chunks.block.base + HEADER <= a <= End(m.chunks.block)
    ensures m.big.Link? ==> a != m.big.block.base + HEADER
  {
    if m.big.Link? {
      var c, b := m.chunks.block, m.big.block;
      assert c in Held(m) && b in Held(m) && c in Blocks(m.chunks) && b in Blocks(m.big);
    }
  }

  lemma InHead(m: Mark, a: nat, n: nat)
    requires m.chunks.Link? && m.chunks.block.base + HEADER <= a && a + n <= End(m.chunks.block)
    ensures Housed(Item(a, n), Held(m)) && Housed(Item(a, n), Blocks(m.chunks))
  {
    assert Inside(Item(a, n), m.chunks.block);
  }

  lemma SameLists(m: Mark, m': Mark)
    requires m'.chunks == m.chunks && m'.big == m.big
    ensures Held(m') == Held(m) && (ListsOk(m) ==> ListsOk(m'))
  {
  }

  // ----- allocation

  /** From the free area of the head chunk. */
  lemma AllocHere(m: Mark, g: Ledger, n: nat)
    requires Inv(m, g) && n % 8 == 0 && m.freePtr + n <= End(m.chunks.block)
    ensures Inv(m.(lastAlloc := m.freePtr, freePtr := m.freePtr + n), Own(g, Item(m.freePtr, n)))
  {
    hide Packed, ListsOk, Extends, Housed, Held;
    InHead(m, m.freePtr, n);
    ChunkNotBig(m, m.freePtr);
    SameLists(m, m.(lastAlloc := m.freePtr, freePtr := m.freePtr + n));
    PackedTake(Flat(g), Held(m), FreeArea(m), n);
    assert Flat(Own(g, Item(m.freePtr, n))) == Flat(g) + [Item(m.freePtr, n)];
  }

  lemma NewFacts(b: Block, live: set<Block>)
    requires New(b, live)
    ensures 0 < b.base && b.base % 8 == 0 && HEADER <= b.size < 0x8000_0000 && b.size % 8 == 0 && b !in live
  {
  }

  /** From a new chunk put in front of the list. */
  lemma AllocChunk(m: Mark, g: Ledger, b: Block, n: nat)
    requires Inv(m, g) && New(b, Held(m)) && n % 8 == 0 && HEADER + n <= b.size
    ensures var a := b.base + HEADER;
            Inv(m.(chunks := Link(b, m.chunks), lastAlloc := a, freePtr := a + n), Own(g, Item(a, n)))
  {
    hide Packed, ListsOk, Housed, Extends, Held, New;
    var a := b.base + HEADER;
    var m' := m.(chunks := Link(b, m.chunks), lastAlloc := a, freePtr := a + n);
    NewFacts(b, Held(m));
    NewHead(m, g, b, m');
    ChunkNotBig(m', a);
    TakeFresh(m, g, b, m', a, n);
    RecordStays(m, g.own, m');
    assert Flat(Own(g, Item(a, n))) == Flat(g) + [Item(a, n)];
    assert g.own[0] == (g.own + [Item(a, n)])[0];
    ExtendsNew(m, m');
  }

  lemma ExtendsNew(m: Mark, m': Mark)
    requires m'.prev == m.prev && (m'.chunks == m.chunks || (m'.chunks.Link? && m'.chunks.prev == m.chunks))
    requires m'.big == m.big || (m'.big.Link? && m'.big.prev == m.big)
    ensures m.prev.On? && Extends(m.chunks, m.prev.mark.chunks) ==> Extends(m'.chunks, m.prev.mark.chunks)
    ensures m.prev.On? && Extends(m.big, m.prev.mark.big) ==> Extends(m'.big, m.prev.mark.big)
  {
  }

  lemma NewHead(m: Mark, g: Ledger, b: Block, m': Mark)
    requires ListsOk(m) && New(b, Held(m))
    requires (m'.chunks == Link(b, m.chunks) && m'.big == m.big) || (m'.big == Link(b, m.big) && m'.chunks == m.chunks)
    ensures ListsOk(m') && Held(m') == Held(m) + {b}
  {
    SoundAdd(Held(m), b);
    assert Held(m') == Held(m) + {b};
  }

  lemma TakeFresh(m: Mark, g: Ledger, b: Block, m': Mark, a: nat, n: nat)
    requires FreeOk(m) && Packed(Flat(g), Held(m), FreeArea(m)) && New(b, Held(m)) && Held(m') == Held(m) + {b}
    requires a == b.base + HEADER && HEADER + n <= b.size && m'.chunks == Link(b, m.chunks) && m'.freePtr == a + n
    ensures Packed(Flat(g) + [Item(a, n)], Held(m'), FreeArea(m'))
  {
    var x := Item(a, n);
    assert Inside(x, b);
    OffNewBlock(Flat(g), Held(m), FreeArea(m), b, x);
    OffNewBlock(Flat(g), Held(m), FreeArea(m), b, FreeArea(m'));
    PackedAppend(Flat(g), Held(m), FreeArea(m), x, Held(m'), FreeArea(m'));
  }

  lemma RecordStays(m: Mark, own: seq<Item>, m': Mark)
    requires RecordOk(m, own) && m'.addr == m.addr && Blocks(m.chunks) <= Blocks(m'.chunks)
    ensures RecordOk(m', own)
  {
    HousedMore(own[0], Blocks(m.chunks), Blocks(m'.chunks));
  }

  /** As a big block of its own. */
  lemma AllocBig(m: Mark, g: Ledger, b: Block)
    requires Inv(m, g) && New(b, Held(m))
    ensures var a := b.base + HEADER;
            Inv(m.(big := Link(b, m.big), lastAlloc := a), Own(g, Item(a, b.size - HEADER)))
  {
    hide Packed, ListsOk, Housed, Extends, Held, New;
    NewFacts(b, Held(m));
    var a := b.base + HEADER;
    var x := Item(a, b.size - HEADER);
    var m' := m.(big := Link(b, m.big), lastAlloc := a);
    NewHead(m, g, b, m');
    TakeWhole(m, g, b, m');
    assert Flat(Own(g, x)) == Flat(g) + [x];
    assert g.own[0] == (g.own + [x])[0];
    ExtendsNil(m.big);
    ExtendsNew(m, m');
  }

  lemma TakeWhole(m: Mark, g: Ledger, b: Block, m': Mark)
    requires FreeOk(m) && Packed(Flat(g), Held(m), FreeArea(m)) && New(b, Held(m)) && Held(m') == Held(m) + {b}
    ensures b.size >= HEADER
    ensures Packed(Flat(g) + [Item(b.base + HEADER, b.size - HEADER)], Held(m'), FreeArea(m))
  {
    var x := Item(b.base + HEADER, b.size - HEADER);
    assert Inside(x, b);
    OffNewBlock(Flat(g), Held(m), FreeArea(m), b, x);
    HeadApart(m, b, x);
    PackedAppend(Flat(g), Held(m), FreeArea(m), x, Held(m'), FreeArea(m));
  }

  lemma HeadApart(m: Mark, b: Block, x: Item)
    requires FreeOk(m) && New(b, Held(m)) && Inside(x, b)
    ensures Off(x, FreeArea(m))
  {
    assert m.chunks.block in Held(m);
  }

  // ----- marks

  /** A mark whose record is taken from the free area of the head chunk. */
  lemma PushHere(m: Mark, g: Ledger)
    requires Inv(m, g) && m.freePtr + MARK_SIZE <= End(m.chunks.block)
    ensures Inv(Mark(m.freePtr, On(m), 0, m.big, m.chunks, m.freePtr + MARK_SIZE),
        Page([Item(m.freePtr, MARK_SIZE)], g))
  {
    hide Packed, ListsOk, Housed, Held;
    InHead(m, m.freePtr, MARK_SIZE);
    SameLists(m, Mark(m.freePtr, On(m), 0, m.big, m.chunks, m.freePtr + MARK_SIZE));
    ExtendsSelf(m.big, m.chunks.block, Nil);
    ExtendsSelf(m.chunks, m.chunks.block, Nil);
    PackedTake(Flat(g), Held(m), FreeArea(m), MARK_SIZE);
  }

  /** A mark whose record starts a new chunk. */
  lemma PushChunk(m: Mark, g: Ledger, b: Block)
    requires Inv(m, g) && New(b, Held(m)) && HEADER + MARK_SIZE <= b.size
    ensures var a := b.base + HEADER;
            Inv(Mark(a, On(m), 0, m.big, Link(b, m.chunks), a + MARK_SIZE), Page([Item(a, MARK_SIZE)], g))
  {
    hide Packed, ListsOk, Housed, Extends, Held, New;
    var a := b.base + HEADER;
    var m' := Mark(a, On(m), 0, m.big, Link(b, m.chunks), a + MARK_SIZE);
    NewFacts(b, Held(m));
    NewHead(m, g, b, m');
    TakeFresh(m, g, b, m', a, MARK_SIZE);
    InHead(m', a, MARK_SIZE);
    ExtendsSelf(m.big, b, m.chunks);
    assert Flat(Page([Item(a, MARK_SIZE)], g)) == Flat(g) + [Item(a, MARK_SIZE)];
  }

  lemma ExtendsSelf(l: List, b: Block, tail: List)
    ensures Extends(l, l) && Extends(Link(b, tail), tail)
  {
  }

  // ----- the last allocation

  lemma FlatLast(g: Ledger)
    requires g.Page? && g.own != []
    ensures var s := Flat(g);
        s[..|s| - 1] == Flat(Page(g.own[..|g.own| - 1], g.below)) && s != [] && s[|s| - 1] == g.own[|g.own| - 1]
  {
  }

  /** The page with its last item replaced. */
  function Relast(g: Ledger, x: Item): Ledger
    requires g.Page? && g.own != []
  {
    Page(g.own[..|g.own| - 1] + [x], g.below)
  }

  /** Moving the boundary between the last item and the free area behind it. */
  lemma PackedResize(s: seq<Item>, live: set<Block>, free: Item, n: nat)
    requires Packed(s, live, free) && s != [] && s[|s| - 1].addr + s[|s| - 1].size == free.addr
    requires n <= s[|s| - 1].size + free.size && Housed(Item(s[|s| - 1].addr, n), live)
    ensures var x := s[|s| - 1];
            Packed(s[..|s| - 1] + [Item(x.addr, n)], live, Item(x.addr + n, x.size + free.size - n))
  {
    var x := s[|s| - 1];
    var t, y, f := s[..|s| - 1], Item(x.addr, n), Item(x.addr + n, x.size + free.size - n);
    forall i | 0 <= i < |t| ensures Off(t[i], y) && Off(t[i], f) && Housed(t[i], live) {
      assert t[i] == s[i] && Off(s[i], x) && Off(s[i], free);
    }
    forall i, j | 0 <= i < j < |t| ensures Off(t[i], t[j]) {
      assert t[i] == s[i] && t[j] == s[j];
    }
    forall i | 0 <= i < |t| ensures Off(t[i], free) {
      assert t[i] == s[i];
    }
    PackedAppend(t, live, free, y, live, f);
  }

  /** In-place change of the last allocation's size. */
  lemma ResizeHere(m: Mark, g: Ledger, n: nat)
    requires Inv(m, g) && m.lastAlloc != 0 && !IsBig(m) && n % 8 == 0 && m.lastAlloc + n <= End(m.chunks.block)
    ensures Inv(m.(freePtr := m.lastAlloc + n), Relast(g, Item(m.lastAlloc, n)))
  {
    hide Packed, ListsOk, Housed, Extends, Held;
    var s := Flat(g);
    FlatLast(g);
    InHead(m, m.lastAlloc, n);
    SameLists(m, m.(freePtr := m.lastAlloc + n));
    PackedResize(s, Held(m), FreeArea(m), n);
    var g' := Relast(g, Item(m.lastAlloc, n));
    assert Flat(g') == s[..|s| - 1] + [Item(m.lastAlloc, n)];
    assert g'.own[0] == g.own[0];
  }

  /** After the last allocation has moved, the place it left is no longer handed out. */
  lemma ForgetMoved(m: Mark, g: Ledger, k: nat)
    requires Inv(m, g) && m.lastAlloc != 0 && 0 < k < |g.own| - 1
    ensures Inv(m, Page(g.own[..k] + g.own[k + 1..], g.below))
  {
    hide Packed, ListsOk, Housed, Extends, Held;
    var g' := Page(g.own[..k] + g.own[k + 1..], g.below);
    var d := |Flat(g.below)|;
    assert Flat(g') == Flat(g)[..d + k] + Flat(g)[d + k + 1..];
    PackedRemove(Flat(g), Held(m), FreeArea(m), d + k);
    assert g'.own[0] == g.own[0] && g'.own[|g'.own| - 1] == g.own[|g.own| - 1];
  }

  lemma PackedRemove(s: seq<Item>, live: set<Block>, free: Item, k: nat)
    requires Packed(s, live, free) && k < |s|
    ensures Packed(s[..k] + s[k + 1..], live, free)
  {
    var t := s[..k] + s[k + 1..];
    forall i, j | 0 <= i < j < |t| ensures Off(t[i], t[j]) {
      assert t[i] == s[if i < k then i else i + 1] && t[j] == s[if j < k then j else j + 1];
    }
    forall i | 0 <= i < |t| ensures Housed(t[i], live) && Off(t[i], free) {
      assert t[i] == s[if i < k then i else i + 1];
    }
  }

  /** Relocating the last allocation from its big block to a new one, and freeing the old block. */
  lemma ReplaceBig(m: Mark, g: Ledger, b: Block)
    requires Inv(m, g) && m.lastAlloc != 0 && IsBig(m) && New(b, Held(m))
    ensures var a := b.base + HEADER;
            var m' := m.(big := Link(b, m.big.prev), lastAlloc := a);
            Inv(m', Relast(g, Item(a, b.size - HEADER))) && Held(m') == Held(m) - {m.big.block} + {b}
  {
    hide Packed, ListsOk, Housed, Extends, New, Held, Sound, NoRepeat;
    NewFacts(b, Held(m));
    var was, a := m.big.block, b.base + HEADER;
    var x := Item(a, b.size - HEADER);
    var m' := m.(big := Link(b, m.big.prev), lastAlloc := a);
    SwapHeld(m, b, m');
    var s, g' := Flat(g), Relast(g, x);
    FlatLast(g);
    LeaveBlock(s, Held(m), FreeArea(m), was);
    TakeWholeAfter(m, s[..|s| - 1], b, m', was);
    assert Flat(g') == s[..|s| - 1] + [x];
    BigListsOk(m, m', b);
    assert g'.own[0] == g.own[0];
    if m.prev.On? { ExtendsNewBig(m', m.prev.mark.big); }
  }

  lemma SwapHeld(m: Mark, b: Block, m': Mark)
    requires ListsOk(m) && m.big.Link? && New(b, Held(m)) && m'.chunks == m.chunks && m'.big == Link(b, m.big.prev)
    ensures Held(m') == Held(m) - {m.big.block} + {b}
    ensures m.big.block.size >= HEADER
  {
    assert m.big.block in Held(m);
  }

  lemma TakeWholeAfter(m: Mark, t: seq<Item>, b: Block, m': Mark, was: Block)
    requires FreeOk(m) && Packed(t, Held(m) - {was}, FreeArea(m)) && New(b, Held(m))
        && Held(m') == Held(m) - {was} + {b}
    ensures b.size >= HEADER
    ensures Packed(t + [Item(b.base + HEADER, b.size - HEADER)], Held(m'), FreeArea(m))
  {
    var x := Item(b.base + HEADER, b.size - HEADER);
    assert Inside(x, b);
    OffNewBlock(t, Held(m) - {was}, FreeArea(m), b, x);
    HeadApart(m, b, x);
    PackedAppend(t, Held(m) - {was}, FreeArea(m), x, Held(m'), FreeArea(m));
  }

  lemma ExtendsNewBig(m: Mark, tail: List)
    requires m.big.Link? && Extends(m.big.prev, tail)
    ensures Extends(m.big, tail)
  {
  }

  lemma BigListsOk(m: Mark, m': Mark, b: Block)
    requires ListsOk(m) && m.big.Link? && New(b, Held(m)) && m'.chunks == m.chunks && m'.big == Link(b, m.big.prev)
    ensures ListsOk(m')
  {
    SoundAdd(Held(m), b);
  }

  /** When the last item fills a block, no other item is in that block. */
  lemma LeaveBlock(s: seq<Item>, live: set<Block>, free: Item, b: Block)
    requires b.size >= HEADER && Packed(s, live, free) && s != []
        && s[|s| - 1] == Item(b.base + HEADER, b.size - HEADER)
    ensures Packed(s[..|s| - 1], live - {b}, free)
  {
    var t := s[..|s| - 1];
    forall i | 0 <= i < |t| ensures Housed(t[i], live - {b}) && Off(t[i], free) {
      assert t[i] == s[i] && Off(s[i], s[|s| - 1]);
      if t[i].size > 0 {
        var c :| c in live && Inside(t[i], c);
        assert c != b;
        assert c in live - {b};
      }
    }
    forall i, j | 0 <= i < j < |t| ensures Off(t[i], t[j]) {
      assert t[i] == s[i] && t[j] == s[j];
    }
  }
}

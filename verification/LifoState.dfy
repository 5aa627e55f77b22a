/** The mark/release allocator's data: blocks obtained from the underlying allocator, the lists
    that hold them, marks, and what it means for them to be in order. */
module LifoState {
  import opened Basics

  /** A block as the underlying allocator returns it; `size` is its actual size. */
  datatype Block = Block(base: nat, size: nat)

  /** A list of blocks linked by lc_prev. The header of each block is its first HEADER bytes. */
  datatype List = Nil | Link(block: Block, prev: List)

  /** lm_prev: the bottom mark has none but itself. */
  datatype Under = Bottom | On(mark: Mark)

  /** A mark record at `addr`; `lastAlloc` is 0 when there is no last allocation. */
  datatype Mark = Mark(addr: nat, prev: Under, lastAlloc: nat, big: List, chunks: List, freePtr: nat)

  const HEADER := 16
  const MARK_SIZE := 56
  const MAX_ALLOC := 0x7FFF_FFFF

  function RoundUp8(x: nat): nat {
    (x + 7) / 8 * 8
  }

  /** ROUNDUP stored back into a WORD. */
  function RoundUp32(x: Word): Word {
    RoundUp8(x) % WORD
  }

  function RoundDown(x: nat): nat {
    x / 8 * 8
  }

  /** A DWORD read as a signed int. */
  function Signed(x: Word): (r: int)
    ensures -0x8000_0000 <= r < 0x8000_0000 && (r == x || r + WORD == x)
  {
    if x < 0x8000_0000 then x else x - WORD
  }

  function Blocks(l: List): set<Block> {
    match l
    case Nil => {}
    case Link(b, prev) => Blocks(prev) + {b}
  }

  ghost predicate NoRepeat(l: List) {
    match l
    case Nil => true
    case Link(b, prev) => b !in Blocks(prev) && NoRepeat(prev)
  }

  /** `l` is `tail` with blocks put in front. */
  predicate Extends(l: List, tail: List) {
    l == tail || (l.Link? && Extends(l.prev, tail))
  }

  function Held(m: Mark): set<Block> {
    Blocks(m.chunks) + Blocks(m.big)
  }

  predicate BlockOk(b: Block) {
    0 < b.base && b.base % 8 == 0 && HEADER <= b.size < 0x8000_0000 && b.size % 8 == 0
  }

  predicate Apart(b: Block, c: Block) {
    b.base + b.size <= c.base || c.base + c.size <= b.base
  }

  ghost predicate Sound(live: set<Block>) {
    (forall b :: b in live ==> BlockOk(b)) && forall b, c :: b in live && c in live && b != c ==> Apart(b, c)
  }

  /** A stretch of memory handed out: a mark's record or an allocation. */
  datatype Item = Item(addr: nat, size: nat)

  /** What was handed out under each mark, the top mark's page first; a page starts with the
      mark's own record. */
  datatype Ledger = Nothing | Page(own: seq<Item>, below: Ledger)

  function Flat(g: Ledger): seq<Item> {
    match g
    case Nothing => []
    case Page(own, below) => Flat(below) + own
  }

  /** The two items share no byte. */
  predicate Off(x: Item, y: Item) {
    x.size == 0 || y.size == 0 || x.addr + x.size <= y.addr || y.addr + y.size <= x.addr
  }

  predicate Inside(x: Item, b: Block) {
    b.base + HEADER <= x.addr && x.addr + x.size <= b.base + b.size
  }

  ghost predicate Housed(x: Item, live: set<Block>) {
    x.size == 0 || exists b :: b in live && Inside(x, b)
  }

  /** No two items overlap, every item lies in a live block behind its header, and none reaches
      into the free area. */
  ghost predicate Packed(s: seq<Item>, live: set<Block>, free: Item) {
    && (forall i, j :: 0 <= i < j < |s| ==> Off(s[i], s[j]))
    && (forall i :: 0 <= i < |s| ==> Housed(s[i], live))
    && (forall i :: 0 <= i < |s| ==> Off(s[i], free))
  }

  function End(b: Block): nat {
    b.base + b.size
  }

  function FreeArea(m: Mark): Item
    requires m.chunks.Link? && m.freePtr <= End(m.chunks.block)
  {
    Item(m.freePtr, End(m.chunks.block) - m.freePtr)
  }

  /** The free pointer is in the head chunk, behind its header and not past its end. */
  predicate FreeOk(m: Mark) {
    m.chunks.Link? && m.chunks.block.base + HEADER <= m.freePtr <= End(m.chunks.block) && m.freePtr % 8 == 0
  }

  function IsBig(m: Mark): bool {
    m.big.Link? && m.lastAlloc == m.big.block.base + HEADER
  }

  function BigBelow(m: Mark): List {
    match m.prev
    case Bottom => Nil
    case On(n) => n.big
  }

  /** The last allocation is the last item of the mark's page: a big block the mark obtained
      itself, or the stretch of the head chunk that ends at the free pointer. */
  ghost predicate LastOk(m: Mark, own: seq<Item>) {
    m.lastAlloc == 0 || (
      && |own| >= 2 && own[|own| - 1].addr == m.lastAlloc && m.lastAlloc % 8 == 0
      && if IsBig(m) then own[|own| - 1].size == m.big.block.size - HEADER && Extends(m.big.prev, BigBelow(m))
         else
           FreeOk(m) && m.chunks.block.base + HEADER <= m.lastAlloc &&
           m.lastAlloc + own[|own| - 1].size == m.freePtr)
  }

  ghost predicate RecordOk(m: Mark, own: seq<Item>) {
    own != [] && own[0] == Item(m.addr, MARK_SIZE) && Housed(own[0], Blocks(m.chunks))
  }

  ghost predicate ListsOk(m: Mark) {
    NoRepeat(m.chunks) && NoRepeat(m.big) && Blocks(m.chunks) !! Blocks(m.big) && Sound(Held(m))
  }

  /** Everything about one mark that does not mention the marks below it. */
  ghost predicate MarkOk(m: Mark, g: Ledger) {
    && g.Page? && ListsOk(m) && FreeOk(m) && Packed(Flat(g), Held(m), FreeArea(m))
    && RecordOk(m, g.own) && LastOk(m, g.own)
  }

  /** The allocator's invariant: each mark is in order on its own, and its two lists extend those
      of the mark below. */
  ghost predicate Inv(m: Mark, g: Ledger) {
    && MarkOk(m, g)
    && match m.prev
       case Bottom => g.below == Nothing
       case On(n) => Extends(m.chunks, n.chunks) && Extends(m.big, n.big) && Inv(n, g.below)
  }

  // ----- lists

  lemma {:induction false} ExtendsBlocks(l: List, tail: List)
    requires Extends(l, tail)
    ensures Blocks(tail) <= Blocks(l)
  {
    if l != tail { ExtendsBlocks(l.prev, tail); }
  }

  lemma {:induction false} ExtendsTrans(l: List, m: List, n: List)
    requires Extends(l, m) && Extends(m, n)
    ensures Extends(l, n)
  {
    if l != m { ExtendsTrans(l.prev, m, n); }
  }

  lemma {:induction false} ExtendsNil(l: List)
    ensures Extends(l, Nil)
  {
    if l.Link? { ExtendsNil(l.prev); }
  }

  // ----- packing

  lemma PackedAppend(s: seq<Item>, live: set<Block>, free: Item, x: Item, live': set<Block>, free': Item)
    requires Packed(s, live, free) && live <= live' && Housed(x, live')
    requires forall i :: 0 <= i < |s| ==> Off(s[i], x) && Off(s[i], free')
    requires Off(x, free')
    ensures Packed(s + [x], live', free')
  {
    forall i | 0 <= i < |s| ensures Housed(s[i], live') {
      HousedMore(s[i], live, live');
    }
  }

  lemma HousedMore(x: Item, live: set<Block>, live': set<Block>)
    requires Housed(x, live) && live <= live'
    ensures Housed(x, live')
  {
  }

  /** Nothing handed out reaches into a block that was not yet there. */
  lemma OffNewBlock(s: seq<Item>, live: set<Block>, free: Item, b: Block, x: Item)
    requires Packed(s, live, free) && forall c :: c in live ==> Apart(c, b)
    requires b.base <= x.addr && x.addr + x.size <= End(b)
    ensures forall i :: 0 <= i < |s| ==> Off(s[i], x)
  {
    forall i | 0 <= i < |s| ensures Off(s[i], x) {
      assert Housed(s[i], live);
      if s[i].size > 0 {
        var c :| c in live && Inside(s[i], c);
      }
    }
  }

  /** An item taken from the front of the free area. */
  lemma PackedTake(s: seq<Item>, live: set<Block>, free: Item, n: nat)
    requires Packed(s, live, free) && n <= free.size && Housed(Item(free.addr, n), live)
    ensures Packed(s + [Item(free.addr, n)], live, Item(free.addr + n, free.size - n))
  {
    var x, free' := Item(free.addr, n), Item(free.addr + n, free.size - n);
    forall i | 0 <= i < |s| ensures Off(s[i], x) && Off(s[i], free') {
      assert Off(s[i], free);
    }
    PackedAppend(s, live, free, x, live, free');
  }
}

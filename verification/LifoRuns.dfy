/** Whole runs of the mark/release allocator: popping a mark undoes everything done under it. */
module LifoRuns {
  import opened Basics
  import opened LifoState
  import opened MemLifo

  /** What a caller may do between a push and its pop: allocate, resize, and push further marks
      and frames, each with what is done under it before it is popped. */
  datatype Op =
    | Allocate(sz: Word, wantAll: bool)
    | Expand(incr: Word, fix: bool)
    | Shrink(decr: Word, fix: bool)
    | Resize(newSize: Word, fix: bool)
    | Marked(body: seq<Op>)
    | Framed(sz: Word, wantAll: bool, body: seq<Op>)

  /** Runs that never ask for 2 GB or more, as rounded; in these every resize is treated as meant. */
  predicate Growable(ops: seq<Op>) {
    forall i :: 0 <= i < |ops| ==> GrowableOp(ops[i])
  }

  predicate GrowableOp(op: Op) {
    match op
    case Expand(incr, _) => incr <= GROWABLE
    case Resize(newSize, _) => newSize <= GROWABLE
    case Marked(body) => Growable(body)
    case Framed(_, _, body) => Growable(body)
    case _ => true
  }

  /** Which operations leave the allocator in order. The others are the resizes by which the free pointer
      leaves its chunk, or a big block is copied to a smaller one. */
  predicate Keeps(m: Mark, op: Op) {
    match op
    case Expand(incr, fix) => KeepsExpand(m, incr, fix)
    case Resize(newSize, _) => KeepsResize(m, newSize)
    case _ => true
  }

  /** `op` is one of the operations, at any depth. */
  ghost predicate Occurs(op: Op, ops: seq<Op>) {
    exists i :: 0 <= i < |ops| && OccursIn(op, ops[i])
  }

  ghost predicate OccursIn(op: Op, within: Op) {
    op == within || match within
                    case Marked(body) => Occurs(op, body)
                    case Framed(_, _, body) => Occurs(op, body)
                    case _ => false
  }

  /** In a Growable run nothing occurs that does not keep the allocator in order. */
  lemma {:induction false} GrowableOccurs(op: Op, within: Op)
    requires GrowableOp(within) && OccursIn(op, within)
    ensures GrowableOp(op)
    decreases within
  {
    if op != within {
      var body := within.body;
      var i :| 0 <= i < |body| && OccursIn(op, body[i]);
      GrowableOccurs(op, body[i]);
    }
  }

  /** Why a Growable run is never broken off. */
  lemma GrowableKeeps(m: Mark, g: Ledger, op: Op, ops: seq<Op>)
    requires Inv(m, g) && Growable(ops) && Occurs(op, ops)
    ensures Keeps(m, op)
  {
    hide Inv;
    var i :| 0 <= i < |ops| && OccursIn(op, ops[i]);
    GrowableOccurs(op, ops[i]);
    OldSizeOk(m, g);
    GrowableMeant(m, op);
  }

  /** The bytes of these items are what they were. */
  ghost predicate Untouched(mem: nat -> int, mem': nat -> int, s: seq<Item>) {
    forall i, a: nat {:trigger s[i], mem'(a)} :: 0 <= i < |s| && s[i].addr <= a < s[i].addr + s[i].size ==>
        mem'(a) == mem(a)
  }

  lemma OthersUntouched(m: Mark, g: Ledger, mem: nat -> int, mem': nat -> int, x: Item)
    requires Inv(m, g) && g.own != [] && LastItem(g) == x && SameOutside(mem, mem', x)
    ensures Untouched(mem, mem', Flat(g.below))
  {
    var s, t := Flat(g), Flat(g.below);
    forall i, a: nat {:trigger t[i], mem'(a)} | 0 <= i < |t| && t[i].addr <= a < t[i].addr + t[i].size
      ensures mem'(a) == mem(a)
    {
      assert t[i] == s[i] && s[|s| - 1] == x;
      assert Off(s[i], s[|s| - 1]);
    }
  }

  lemma GrowableMeant(m: Mark, op: Op)
    requires GrowableOp(op)
    ensures op.Expand? ==> CanExpand(m, op.incr, op.fix)
    ensures op.Resize? && (m.lastAlloc == 0 || OldSize(m) >= 0) ==> CanResize(m, op.newSize)
  {
    if op.Resize? { Rounded(op.newSize); }
  }

  lemma OldSizeOk(m: Mark, g: Ledger)
    requires Inv(m, g)
    ensures m.lastAlloc != 0 ==> OldSize(m) >= 0
  {
    if m.lastAlloc != 0 { LastSize(m, g); }
  }

  /** Everything done under the top mark keeps that mark, the mark below it, all that was handed
      out below, and every byte of it. The run is broken off only before a resize in it that would
      not leave the allocator in order. */
  method RunUnder(l: Lifo, ops: seq<Op>) returns (done: bool, ghost bad: Op)
    requires l.Valid()
    modifies l
    ensures l.Valid() && (Growable(ops) ==> done) && (!done ==> Occurs(bad, ops) && !Keeps(l.top, bad))
    ensures done ==> l.top.addr == old(l.top.addr) && l.top.prev == old(l.top.prev)
    ensures done ==> old(l.ledger).Page? && l.ledger.Page? && l.ledger.below == old(l.ledger).below
    ensures done ==> Untouched(old(l.mem), l.mem, Flat(l.ledger.below))
    decreases ops, 0
  {
    hide Inv, Held, AllocatorOk, Untouched, Keeps, Growable;
    InvFacts(l.top, l.ledger);
    UntouchedSelf(l.mem, Flat(l.ledger.below));
    bad := Marked([]);
    for i := 0 to |ops|
      invariant l.Valid() && l.top.addr == old(l.top.addr) && l.top.prev == old(l.top.prev)
      invariant l.ledger.Page? && l.ledger.below == old(l.ledger).below
      invariant Untouched(old(l.mem), l.mem, Flat(l.ledger.below))
    {
      ghost var mem := l.mem;
      done, bad := RunOp(l, ops[i]);
      if !done {
        if Growable(ops) {
          GrowableKeeps(l.top, l.ledger, bad, ops);
        }
        return;
      }
      UntouchedTrans(old(l.mem), mem, l.mem, Flat(l.ledger.below));
    }
    done := true;
  }

  method RunOp(l: Lifo, op: Op) returns (done: bool, ghost bad: Op)
    requires l.Valid()
    modifies l
    ensures l.Valid() && (!done ==> OccursIn(bad, op) && !Keeps(l.top, bad))
    ensures op.Expand? || op.Resize? ==> done == Keeps(old(l.top), op)
    ensures done ==> l.top.addr == old(l.top.addr) && l.top.prev == old(l.top.prev)
    ensures done ==> old(l.ledger).Page? && l.ledger.Page? && l.ledger.below == old(l.ledger).below
    ensures done ==> Untouched(old(l.mem), l.mem, Flat(l.ledger.below))
    decreases op, 0
  {
    hide Inv, Held, AllocatorOk, Untouched, KeepsExpand, KeepsResize;
    InvFacts(l.top, l.ledger);
    UntouchedSelf(l.mem, Flat(l.ledger.below));
    done, bad := true, op;
    match op {
      case Allocate(sz, wantAll) =>
        var _, _, _ := l.Alloc(sz, wantAll);
      case Shrink(decr, fix) =>
        var _ := l.ShrinkLast(decr, fix);
      case Expand(incr, fix) =>
        done := KeepsExpand(l.top, incr, fix);
        if done {
          RunExpand(l, incr, fix);
        }
      case Resize(newSize, fix) =>
        done := KeepsResize(l.top, newSize);
        if done {
          RunResize(l, newSize, fix);
        }
      case Marked(body) =>
        done, bad := RunMarked(l, body);
        if done {
          UntouchedBelow(old(l.mem), l.mem, l.ledger);
        }
      case Framed(sz, wantAll, body) =>
        done, bad := RunFramed(l, sz, wantAll, body);
        if done {
          UntouchedBelow(old(l.mem), l.mem, l.ledger);
        }
    }
  }

  method RunExpand(l: Lifo, incr: Word, fix: bool)
    requires l.Valid() && KeepsExpand(l.top, incr, fix)
    modifies l
    ensures l.Valid() && l.top.addr == old(l.top.addr) && l.top.prev == old(l.top.prev)
    ensures old(l.ledger).Page? && l.ledger.Page? && l.ledger.below == old(l.ledger).below
    ensures Untouched(old(l.mem), l.mem, Flat(l.ledger.below))
  {
    hide Inv, Held, AllocatorOk, Untouched, KeepsExpand;
    InvFacts(l.top, l.ledger);
    UntouchedSelf(l.mem, Flat(l.ledger.below));
    var was := l.top.lastAlloc;
    var p, n := l.ExpandLast(incr, fix);
    if was != 0 && p != 0 {
      OthersUntouched(l.top, l.ledger, old(l.mem), l.mem, Item(p, n));
    }
  }

  method RunResize(l: Lifo, newSize: Word, fix: bool)
    requires l.Valid() && KeepsResize(l.top, newSize)
    modifies l
    ensures l.Valid() && l.top.addr == old(l.top.addr) && l.top.prev == old(l.top.prev)
    ensures old(l.ledger).Page? && l.ledger.Page? && l.ledger.below == old(l.ledger).below
    ensures Untouched(old(l.mem), l.mem, Flat(l.ledger.below))
  {
    hide Inv, Held, AllocatorOk, Untouched, KeepsResize;
    InvFacts(l.top, l.ledger);
    UntouchedSelf(l.mem, Flat(l.ledger.below));
    var p, n := l.ResizeLast(newSize, fix);
    if p != 0 {
      OthersUntouched(l.top, l.ledger, old(l.mem), l.mem, Item(p, n));
    }
  }

  /** Pushing a mark, any balanced run, and popping the mark: the lists, the free pointer, the
      last allocation and the blocks held are exactly those from before, and nothing handed out
      before has changed. */
  method RunMarked(l: Lifo, body: seq<Op>) returns (done: bool, ghost bad: Op)
    requires l.Valid()
    modifies l
    ensures l.Valid() && (Growable(body) ==> done) && (!done ==> Occurs(bad, body) && !Keeps(l.top, bad))
    ensures done ==> l.top == old(l.top) && l.live == old(l.live) && l.ledger == old(l.ledger)
    ensures done ==> Untouched(old(l.mem), l.mem, Flat(l.ledger))
    decreases body, 1
  {
    hide Inv, Held, AllocatorOk, Untouched, Growable, Occurs, Keeps;
    UntouchedSelf(l.mem, Flat(l.ledger));
    done, bad := true, Marked(body);
    var mark := l.PushMark();
    if mark != 0 {
      done, bad := RunUnder(l, body);
      if !done {
        return;
      }
      l.PopMark();
    }
    RestoredLive(old(l.top), l.top, old(l.live), l.live);
  }

  /** The same for a frame, which is popped like a mark. */
  method RunFramed(l: Lifo, sz: Word, wantAll: bool, body: seq<Op>) returns (done: bool, ghost bad: Op)
    requires l.Valid()
    modifies l
    ensures l.Valid() && (Growable(body) ==> done) && (!done ==> Occurs(bad, body) && !Keeps(l.top, bad))
    ensures done ==> l.top == old(l.top) && l.live == old(l.live) && l.ledger == old(l.ledger)
    ensures done ==> Untouched(old(l.mem), l.mem, Flat(l.ledger))
    decreases body, 1
  {
    hide Inv, Held, AllocatorOk, Untouched, Growable, Occurs, Keeps;
    UntouchedSelf(l.mem, Flat(l.ledger));
    done, bad := true, Marked(body);
    var p, _, _ := l.PushFrame(sz, wantAll);
    if p != 0 {
      done, bad := RunUnder(l, body);
      if !done {
        return;
      }
      l.PopMark();
    }
    RestoredLive(old(l.top), l.top, old(l.live), l.live);
  }

  lemma UntouchedSelf(mem: nat -> int, s: seq<Item>)
    ensures Untouched(mem, mem, s)
  {
  }

  lemma UntouchedTrans(mem: nat -> int, mem': nat -> int, mem'': nat -> int, s: seq<Item>)
    requires Untouched(mem, mem', s) && Untouched(mem', mem'', s)
    ensures Untouched(mem, mem'', s)
  {
    forall i, a: nat {:trigger s[i], mem''(a)} | 0 <= i < |s| && s[i].addr <= a < s[i].addr + s[i].size
      ensures mem''(a) == mem(a)
    {
      assert mem'(a) == mem(a);
    }
  }

  lemma UntouchedBelow(mem: nat -> int, mem': nat -> int, g: Ledger)
    requires g.Page? && Untouched(mem, mem', Flat(g))
    ensures Untouched(mem, mem', Flat(g.below))
  {
    var s, t := Flat(g), Flat(g.below);
    forall i, a: nat {:trigger t[i], mem'(a)} | 0 <= i < |t| && t[i].addr <= a < t[i].addr + t[i].size
      ensures mem'(a) == mem(a)
    {
      assert t[i] == s[i];
    }
  }

  // ----- what the invariant says about every mark

  /** `n` is `m` or a mark below it. */
  predicate Stacked(m: Mark, n: Mark) {
    m == n || (m.prev.On? && Stacked(m.prev.mark, n))
  }

  /** Every mark on the stack: its free pointer is inside its head chunk, its record is on the
      books and lies in a chunk of its own chunk list, never in a big block, and its lists are
      suffixes of the top mark's. */
  lemma {:induction false} EveryMark(m: Mark, g: Ledger, n: Mark)
    requires Inv(m, g) && Stacked(m, n)
    ensures FreeOk(n) && Item(n.addr, MARK_SIZE) in Flat(g)
    ensures Extends(m.chunks, n.chunks) && Extends(m.big, n.big) && Held(n) <= Held(m)
    ensures exists b :: b in Blocks(n.chunks) && b !in Blocks(m.big) && Inside(Item(n.addr, MARK_SIZE), b)
    decreases m
  {
    if m == n {
      assert g.own[0] in Flat(g);
      assert Housed(g.own[0], Blocks(n.chunks));
    } else {
      var k := m.prev.mark;
      EveryMark(k, g.below, n);
      ExtendsTrans(m.chunks, k.chunks, n.chunks);
      ExtendsTrans(m.big, k.big, n.big);
      ExtendsBlocks(m.chunks, n.chunks);
      ExtendsBlocks(m.big, n.big);
    }
  }

  /** Every two live things - mark records and allocations under any mark - share no byte, and each
      lies in a block that is held. */
  lemma EverythingApart(m: Mark, g: Ledger, x: Item, y: Item, i: nat, j: nat)
    requires Inv(m, g) && i < |Flat(g)| && j < |Flat(g)| && i != j && x == Flat(g)[i] && y == Flat(g)[j]
    ensures Off(x, y) && (x.size > 0 ==> exists b :: b in Held(m) && Inside(x, b))
  {
    assert Off(Flat(g)[if i < j then i else j], Flat(g)[if i < j then j else i]);
    assert Housed(x, Held(m));
  }
}

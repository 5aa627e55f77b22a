/** When the 32-bit layout of a C structure is a C layout. */
module LayoutFacts {
  import opened Basics
  import opened Alignment
  import opened CStructLayout

  // ----- what a layout must be

  function FieldAlign(f: Field): Word {
    match f.kind
    case Basic(p) => if p.Void? then 1 else Width(p)
    case Nested(r) => r.alignment
  }

  /** Where the first `n` fields end. */
  function EndOf(fields: seq<Field>, n: nat): nat
    requires n <= |fields|
  {
    if n == 0 then 0 else fields[n - 1].offset + Extent(fields[n - 1].count, fields[n - 1].size)
  }

  /** `x` is the least multiple of `a` that is not below `y`. */
  predicate LeastMultiple(x: nat, a: nat, y: nat) {
    PowerTo8(a) && x % a == 0 && y <= x < y + a
  }

  /** A structure as C lays it out: each field starts at the first place after the one before where
      it is aligned; its size fills a whole number of alignments, so every array element is aligned
      too; the structure's alignment is the strictest of its fields', and its size the least
      multiple of it that covers them. Nested structures likewise. */
  ghost predicate LayoutOk(r: Rep) {
    && LeastMultiple(r.size, r.alignment, EndOf(r.fields, |r.fields|))
    && FieldsOk(r.fields, r.alignment)
    && (r.alignment == 1 || exists i :: 0 <= i < |r.fields| && FieldAlign(r.fields[i]) == r.alignment)
    && forall i :: 0 <= i < |r.fields| ==> NestedOk(r.fields[i])
  }

  ghost predicate NestedOk(f: Field) {
    match f.kind
    case Basic(p) => f.size == Width(p)
    case Nested(r) => f.size == r.size && LayoutOk(r)
  }

  ghost predicate FieldsOk(fields: seq<Field>, a: Word) {
    forall i :: 0 <= i < |fields| ==> FieldOk(fields, i, a)
  }

  predicate FieldOk(fields: seq<Field>, i: nat, a: Word)
    requires i < |fields|
  {
    && LeastMultiple(fields[i].offset, FieldAlign(fields[i]), EndOf(fields, i))
    && fields[i].size % FieldAlign(fields[i]) == 0
    && a > 0 && a % FieldAlign(fields[i]) == 0
  }

  /** No two fields share a byte, and none reaches past the structure. */
  lemma {:induction false} FieldsApart(r: Rep, i: nat, j: nat)
    requires LayoutOk(r) && i < j <= |r.fields|
    ensures EndOf(r.fields, i + 1) <= if j < |r.fields| then r.fields[j].offset else r.size
    decreases j
  {
    hide NestedOk, FieldAlign;
    if j > i + 1 {
      FieldsApart(r, i, j - 1);
      assert FieldOk(r.fields, j - 1, r.alignment);
    }
    if j < |r.fields| { assert FieldOk(r.fields, j, r.alignment); }
  }

  // ----- the same layout in unbounded arithmetic

  function IdealAlign(def: Def, n: nat): (a: Word)
    requires n <= |def.fields|
    ensures PowerTo8(a)
    decreases def, n
  {
    if n == 0 then 1 else Max(TypeAlign(def.fields[n - 1].kind), IdealAlign(def, n - 1))
  }

  function TypeAlign(t: Type): (a: Word)
    ensures PowerTo8(a)
    decreases t
  {
    match t
    case Plain(p) => if p.Void? then 1 else Width(p)
    case Struct(d) => IdealAlign(d, |d.fields|)
  }

  function IdealEnd(def: Def, n: nat): nat
    requires n <= |def.fields|
    decreases def, n
  {
    if n == 0 then 0
    else
      var f := def.fields[n - 1];
      RoundUp(IdealEnd(def, n - 1), TypeAlign(f.kind))
          + (if f.count == 0 then TypeSize(f.kind) else Times(f.count, TypeSize(f.kind)))
  }

  function TypeSize(t: Type): nat
    decreases t
  {
    match t
    case Plain(p) => Width(p)
    case Struct(d) => RoundUp(IdealEnd(d, |d.fields|), IdealAlign(d, |d.fields|))
  }

  /** The size the structure would have if sizes were unbounded. */
  function IdealSize(def: Def): nat {
    TypeSize(Struct(def))
  }

  // ----- the 32-bit layout is the ideal one while it fits

  lemma Divides(a: nat, b: nat)
    requires PowerTo8(a) && PowerTo8(b) && a <= b
    ensures b % a == 0
  {
  }

  lemma {:induction false} AlignIs(def: Def, n: nat)
    requires n <= |def.fields| && LaidTo(def, n).Some?
    ensures LaidTo(def, n).value.align == IdealAlign(def, n)
    decreases def, n, 1
  {
    hide AlignMask, Extent;
    if n > 0 {
      AlignIs(def, n - 1);
      ElemIs(def, n - 1);
    }
  }

  lemma {:induction false} ElemIs(def: Def, i: nat)
    requires i < |def.fields| && ElemOf(def, i).Some?
    ensures var e, t := ElemOf(def, i).value, def.fields[i].kind;
            if t == Plain(Void) then e == Elem(0, 0, Basic(Void)) && |def.fields| == 1 else e.align == TypeAlign(t)
    decreases def, i, 0
  {
    if def.fields[i].kind.Struct? {
      var d := def.fields[i].kind.def;
      AlignIs(d, |d.fields|);
    }
  }

  /** One field is placed as in unbounded arithmetic while the result fits. */
  lemma PlaceIs(l: Laid, f: FieldDef, e: Elem, a: nat)
    requires PowerTo8(a) && (e.align == a || (e.align == 0 && l.offset == 0))
    requires RoundUp(l.offset, a) + Extent(f.count, e.size) < WORD
    ensures Place(l, f, e).offset == RoundUp(l.offset, a) + Extent(f.count, e.size)
    ensures Place(l, f, e).fields == l.fields + [Field(f.name, e.shape, f.count, RoundUp(l.offset, a), e.size)]
    ensures LeastMultiple(RoundUp(l.offset, a), a, l.offset)
  {
    hide AlignMask, Extent, RoundUp;
    RoundsUp(l.offset, a);
    if e.align == 0 {
      MaskOfVoid(0);
    } else {
      MaskRoundsUp(l.offset, a);
    }
  }

  lemma SizeInExtent(count: Count, size: nat)
    ensures size <= if count == 0 then size else Times(count, size)
  {
    TimesNat(count, size);
  }

  lemma LaidBack(def: Def, n: nat)
    requires n < |def.fields| && LaidTo(def, n + 1).Some?
    ensures LaidTo(def, n).Some? && ElemOf(def, n).Some?
    ensures LaidTo(def, n + 1).value == Place(LaidTo(def, n).value, def.fields[n], ElemOf(def, n).value)
  {
    hide ElemOf, Place;
  }

  lemma IdealStep(def: Def, n: nat)
    requires 0 < n <= |def.fields|
    ensures var f := def.fields[n - 1];
            && IdealEnd(def, n) == RoundUp(IdealEnd(def, n - 1), TypeAlign(f.kind))
                + (if f.count == 0 then TypeSize(f.kind) else Times(f.count, TypeSize(f.kind)))
            && IdealEnd(def, n - 1) <= RoundUp(IdealEnd(def, n - 1), TypeAlign(f.kind))
                && TypeSize(f.kind) <= IdealEnd(def, n)
  {
    hide RoundUp, Times;
    RoundsUp(IdealEnd(def, n - 1), TypeAlign(def.fields[n - 1].kind));
    SizeInExtent(def.fields[n - 1].count, TypeSize(def.fields[n - 1].kind));
  }

  lemma PlaceAlign(l: Laid, f: FieldDef, e: Elem)
    ensures Place(l, f, e).align == Max(e.align, l.align)
  {
    hide AlignMask, Extent;
  }

  lemma {:induction false} LaidRight(def: Def, n: nat)
    requires n <= |def.fields| && LaidTo(def, n).Some? && IdealEnd(def, n) < WORD
    ensures var l := LaidTo(def, n).value;
            && l.offset == IdealEnd(def, n) && |l.fields| == n && EndOf(l.fields, n) == l.offset
            && FieldsOk(l.fields, l.align) && (forall i :: 0 <= i < n ==> NestedOk(l.fields[i]))
            && (l.align == 1 || exists i :: 0 <= i < n && FieldAlign(l.fields[i]) == l.align)
    decreases def, n, 1
  {
    hide AlignMask, Extent, RoundUp, Times, NestedOk, FieldAlign, LaidTo, ElemOf, IdealEnd, Place, FieldsOk;
    if n == 0 {
      LaidRightNone(def);
    } else {
      LaidBack(def, n - 1);
      IdealStep(def, n);
      var f, e, prev := def.fields[n - 1], ElemOf(def, n - 1).value, LaidTo(def, n - 1).value;
      var a := TypeAlign(f.kind);
      LaidRight(def, n - 1);
      ElemIs(def, n - 1);
      ElemRight(def, n - 1);
      ExtentIs(f.count, e.size);
      LaidNone(def);
      PlaceIs(prev, f, e, a);
      PlaceAlign(prev, f, e);
      LaidAligned(def, n - 1);
      OneMoreOk(prev, f, e, a, Place(prev, f, e));
    }
  }

  lemma LaidRightNone(def: Def)
    ensures LaidTo(def, 0) == Some(Laid([], 0, 1)) && IdealEnd(def, 0) == EndOf([], 0) == 0 && FieldsOk([], 1)
  {
  }

  lemma ExtentIs(count: Count, size: Word)
    ensures Extent(count, size) == if count == 0 then size else Times(count, size)
  {
  }

  lemma OneMoreOk(prev: Laid, f: FieldDef, e: Elem, a: Word, l: Laid)
    requires PowerTo8(prev.align) && PowerTo8(a) && l.align == Max(e.align, prev.align)
        && (e.align == a || (e.align == 0 && a == 1))
    requires RoundUp(prev.offset, a) < WORD && LeastMultiple(RoundUp(prev.offset, a), a, prev.offset)
    requires l.fields == prev.fields + [Field(f.name, e.shape, f.count, RoundUp(prev.offset, a), e.size)]
    requires EndOf(prev.fields, |prev.fields|) == prev.offset && FieldsOk(prev.fields, prev.align)
    requires prev.align == 1 || exists i :: 0 <= i < |prev.fields| && FieldAlign(prev.fields[i]) == prev.align
    requires FieldAlign(l.fields[|prev.fields|]) == a && e.size % a == 0
    ensures FieldsOk(l.fields, l.align)
    ensures l.align == 1 || exists i :: 0 <= i < |l.fields| && FieldAlign(l.fields[i]) == l.align
  {
    hide RoundUp, FieldAlign, Extent;
    var n := |prev.fields|;
    forall i | 0 <= i < |l.fields| ensures FieldOk(l.fields, i, l.align) {
      if i < n {
        assert l.fields[i] == prev.fields[i] && FieldOk(prev.fields, i, prev.align);
        assert EndOf(l.fields, i) == EndOf(prev.fields, i);
        Divides(FieldAlign(l.fields[i]), prev.align) by { DividesBack(FieldAlign(l.fields[i]), prev.align); }
        Divides(FieldAlign(l.fields[i]), l.align);
      } else {
        Divides(a, l.align);
        assert EndOf(l.fields, n) == EndOf(prev.fields, n);
      }
    }
    if l.align != 1 {
      if l.align == prev.align {
        var i :| 0 <= i < n && FieldAlign(prev.fields[i]) == prev.align;
        assert FieldAlign(l.fields[i]) == l.align;
      } else {
        assert FieldAlign(l.fields[n]) == l.align;
      }
    }
  }

  lemma DividesBack(a: nat, b: nat)
    requires PowerTo8(a) && PowerTo8(b) && b % a == 0
    ensures a <= b
  {
  }

  lemma {:induction false} ElemRight(def: Def, i: nat)
    requires i < |def.fields| && ElemOf(def, i).Some? && TypeSize(def.fields[i].kind) < WORD
    ensures var e, t := ElemOf(def, i).value, def.fields[i].kind;
            && e.size == TypeSize(t) && e.size % TypeAlign(t) == 0
            && forall f: Field :: f.kind == e.shape && f.size == e.size ==> NestedOk(f) && FieldAlign(f) == TypeAlign(t)
    decreases def, i, 0
  {
    hide LaidTo, IdealEnd;
    if def.fields[i].kind.Struct? {
      CastRight(def.fields[i].kind.def, false);
    }
  }

  lemma {:induction false} CastRight(def: Def, allowEmpty: bool)
    requires Cast(def, allowEmpty).Some? && IdealSize(def) < WORD
    ensures var r := Cast(def, allowEmpty).value;
            LayoutOk(r) && r.size == IdealSize(def) && r.alignment == IdealAlign(def, |def.fields|)
    decreases def, |def.fields| + 1, 0
  {
    hide AlignMask, RoundUp, NestedOk, FieldAlign, LaidTo, IdealEnd;
    var n := |def.fields|;
    AlignIs(def, n);
    RoundsUp(IdealEnd(def, n), IdealAlign(def, n));
    LaidRight(def, n);
    MaskRoundsUp(IdealEnd(def, n), IdealAlign(def, n));
  }

  // ----- and only while it fits

  lemma {:induction false} FieldsSoFar(def: Def, n: nat)
    requires n <= |def.fields| && LaidTo(def, |def.fields|).Some?
    ensures LaidTo(def, n).Some?
    ensures |LaidTo(def, |def.fields|).value.fields| == |def.fields| && |LaidTo(def, n).value.fields| == n
    ensures LaidTo(def, n).value.fields == LaidTo(def, |def.fields|).value.fields[..n]
    decreases |def.fields| - n
  {
    hide LaidTo, ElemOf, AlignMask, Extent;
    if n < |def.fields| {
      FieldsSoFar(def, n + 1);
      LaidBack(def, n);
    }
    LaidAligned(def, n);
  }

  /** The layout has the definition's fields, in their order, with their names, counts and types. */
  lemma FieldsAre(def: Def, r: Rep, i: nat)
    requires Cast(def, true) == Some(r) && i < |def.fields|
    ensures |r.fields| == |def.fields|
    ensures var f, g := def.fields[i], r.fields[i];
            && g.name == f.name && g.count == f.count
            && match f.kind
               case Plain(p) => g.kind == Basic(p) && g.size == Width(p)
               case Struct(d) =>
                 Cast(d, false).Some? && g.kind == Nested(Cast(d, false).value) && g.size == Cast(d, false).value.size
  {
    hide AlignMask, Extent, LaidTo, Place;
    var n := i + 1;
    FieldsSoFar(def, n);
    FieldsSoFar(def, i);
    LaidBack(def, i);
    var e, prev := ElemOf(def, i).value, LaidTo(def, i).value;
    assert r.fields[i] == r.fields[..n][i] == Place(prev, def.fields[i], e).fields[i];
    PlacedField(prev, def.fields[i], e);
  }

  /** A rounded-up offset that has wrapped lies before what it should lie behind. */
  lemma NoWrap(x: Word, a: nat)
    requires PowerTo8(a) && x <= RoundUp(x, a) % WORD
    ensures RoundUp(x, a) < WORD
  {
    hide RoundUp;
    RoundsUp(x, a);
  }

  lemma EndsInside(r: Rep, n: nat)
    requires LayoutOk(r) && n <= |r.fields|
    ensures EndOf(r.fields, n) <= r.size
  {
    if n == 0 {
    } else if n == |r.fields| {
    } else {
      FieldsApart(r, n - 1, |r.fields|);
    }
  }

  lemma {:induction false} EndIs(def: Def, r: Rep, n: nat)
    requires Cast(def, true) == Some(r) && LayoutOk(r) && n <= |def.fields|
    ensures |r.fields| == |def.fields| && IdealEnd(def, n) == EndOf(r.fields, n)
    decreases def, n, 1
  {
    hide AlignMask, Extent, RoundUp, Times, NestedOk, FieldAlign, LayoutOk, FieldsOk, LaidTo, ElemOf, IdealEnd, Place,
        EndOf;
    FieldsSoFar(def, n);
    if n == 0 {
      EndNone(def, r.fields);
    } else {
      var f := def.fields[n - 1];
      EndIs(def, r, n - 1);
      FieldsSoFar(def, n - 1);
      LaidBack(def, n - 1);
      EndsInside(r, n - 1);
      LaidRight(def, n - 1);
      var e, prev := ElemOf(def, n - 1).value, LaidTo(def, n - 1).value;
      assert r.fields[n - 1] == r.fields[..n][n - 1] == Place(prev, f, e).fields[n - 1];
      FieldPlaced(r, n - 1);
      ElemIs(def, n - 1);
      PlacedField(prev, f, e);
      ElemSizeIs(def, r, n - 1);
      LaidNone(def);
      PlacedThere(prev, f, e, TypeAlign(f.kind));
      EndStep(def, r.fields, n);
    }
  }

  lemma EndNone(def: Def, fields: seq<Field>)
    ensures IdealEnd(def, 0) == EndOf(fields, 0) == 0
  {
  }

  lemma EndStep(def: Def, fields: seq<Field>, n: nat)
    requires 0 < n <= |def.fields| && n <= |fields|
    requires fields[n - 1].offset == RoundUp(IdealEnd(def, n - 1), TypeAlign(def.fields[n - 1].kind))
    requires fields[n - 1].count == def.fields[n - 1].count && fields[n - 1].size == TypeSize(def.fields[n - 1].kind)
    ensures IdealEnd(def, n) == EndOf(fields, n)
  {
    hide RoundUp, Times;
    ExtentIs(fields[n - 1].count, fields[n - 1].size);
  }

  lemma PlacedField(l: Laid, f: FieldDef, e: Elem)
    ensures Place(l, f, e).fields == l.fields + [Field(f.name, e.shape, f.count, AlignMask(l.offset, e.align), e.size)]
  {
    hide AlignMask, Extent;
  }

  /** A field that is not before the end of the one before it has not wrapped. */
  lemma PlacedThere(l: Laid, f: FieldDef, e: Elem, a: nat)
    requires PowerTo8(a) && (e.align == a || (e.align == 0 && a == 1 && l.offset == 0))
    requires l.offset <= AlignMask(l.offset, e.align)
    ensures AlignMask(l.offset, e.align) == RoundUp(l.offset, a)
  {
    hide AlignMask, RoundUp;
    if e.align == 0 {
      MaskOfVoid(0);
      RoundsUp(0, 1);
    } else {
      MaskRoundsUp(l.offset, a);
      NoWrap(l.offset, a);
    }
  }

  lemma {:induction false} ElemSizeIs(def: Def, r: Rep, i: nat)
    requires i < |def.fields| && ElemOf(def, i).Some? && i < |r.fields|
    requires r.fields[i].kind == ElemOf(def, i).value.shape && NestedOk(r.fields[i])
    ensures ElemOf(def, i).value.size == TypeSize(def.fields[i].kind)
    decreases def, i, 0
  {
    hide LaidTo, AlignMask, LayoutOk, RoundUp, IdealEnd, Cast;
    if def.fields[i].kind.Struct? {
      var d := def.fields[i].kind.def;
      CastEither(d);
      MustFit(d, r.fields[i].kind.rep);
      CastRight(d, true);
    }
  }

  lemma CastEither(d: Def)
    ensures Cast(d, false).Some? ==> Cast(d, true) == Cast(d, false)
  {
  }

  lemma FieldPlaced(r: Rep, i: nat)
    requires LayoutOk(r) && i < |r.fields|
    ensures EndOf(r.fields, i) <= r.fields[i].offset && NestedOk(r.fields[i])
  {
    assert FieldOk(r.fields, i, r.alignment);
  }

  lemma {:induction false} MustFit(def: Def, r: Rep)
    requires Cast(def, true) == Some(r) && LayoutOk(r)
    ensures IdealSize(def) < WORD
    decreases def, |def.fields| + 1, 0
  {
    hide AlignMask, RoundUp, NestedOk, FieldAlign, LaidTo, IdealEnd, FieldsOk;
    var n := |def.fields|;
    EndIs(def, r, n);
    LaidRight(def, n);
    AlignIs(def, n);
    MaskRoundsUp(IdealEnd(def, n), r.alignment);
    NoWrap(IdealEnd(def, n), r.alignment);
  }

  // ----- what goes wrong otherwise

  function Last(f: Field): nat {
    f.offset + Extent(f.count, f.size)
  }

  /** The two fields share no byte. */
  predicate Disjoint(f: Field, g: Field) {
    Extent(f.count, f.size) == 0 || Extent(g.count, g.size) == 0 || Last(f) <= g.offset || Last(g) <= f.offset
  }

  /** Every value has its own bytes: no two fields share one and none reaches past the structure, in it
      and in the structures nested in it. */
  ghost predicate Tidy(r: Rep) {
    && (forall i :: 0 <= i < |r.fields| ==> Last(r.fields[i]) <= r.size && TidyField(r.fields[i]))
    && forall i, j :: 0 <= i < j < |r.fields| ==> Disjoint(r.fields[i], r.fields[j])
  }

  ghost predicate TidyField(f: Field) {
    f.kind.Nested? ==> Tidy(f.kind.rep)
  }

  lemma {:induction false} LayoutTidy(r: Rep)
    requires LayoutOk(r)
    ensures Tidy(r)
  {
    hide FieldsOk, LeastMultiple, Extent;
    forall i | 0 <= i < |r.fields| ensures Last(r.fields[i]) <= r.size && TidyField(r.fields[i]) {
      FieldsApart(r, i, |r.fields|);
      assert NestedOk(r.fields[i]);
      if r.fields[i].kind.Nested? { LayoutTidy(r.fields[i].kind.rep); }
    }
    forall i, j | 0 <= i < j < |r.fields| ensures Disjoint(r.fields[i], r.fields[j]) {
      FieldsApart(r, i, j);
    }
  }

  /** Only types without alignment are empty. */
  lemma {:induction false} EmptyType(t: Type)
    requires TypeSize(t) == 0
    ensures TypeAlign(t) == 1
    decreases t
  {
    hide RoundUp;
    if t.Struct? {
      RoundsUp(IdealEnd(t.def, |t.def.fields|), IdealAlign(t.def, |t.def.fields|));
      EmptyEnd(t.def, |t.def.fields|);
    }
  }

  lemma {:induction false} EmptyEnd(def: Def, n: nat)
    requires n <= |def.fields| && IdealEnd(def, n) == 0
    ensures IdealAlign(def, n) == 1
    decreases def, n
  {
    hide RoundUp, Times;
    if n > 0 {
      IdealStep(def, n);
      EmptyType(def.fields[n - 1].kind);
      EmptyEnd(def, n - 1);
    }
  }

  /** Some field with bytes is at the front. */
  ghost predicate Fronted(fields: seq<Field>, n: nat)
    requires n <= |fields|
  {
    exists i :: 0 <= i < n && fields[i].offset == 0 && Extent(fields[i].count, fields[i].size) > 0
  }

  /** An offset that wraps becomes 0, on top of the field there. */
  lemma WrapsToFront(x: Word, a: nat)
    requires PowerTo8(a) && RoundUp(x, a) >= WORD
    ensures RoundUp(x, a) == WORD && x > 0
  {
    RoundsUp(x, a);
  }

  lemma {:induction false} TidyEnd(def: Def, r: Rep, n: nat)
    requires Cast(def, true) == Some(r) && Tidy(r) && n <= |def.fields|
    ensures |r.fields| == |def.fields| && IdealEnd(def, n) == EndOf(r.fields, n) <= r.size
    ensures IdealEnd(def, n) > 0 ==> Fronted(r.fields, n)
    decreases def, n, 1
  {
    hide AlignMask, Extent, RoundUp, Times, FieldAlign, LaidTo, ElemOf, IdealEnd, Place, EndOf, NestedOk, FieldsOk;
    FieldsSoFar(def, n);
    if n == 0 {
      EndNone(def, r.fields);
    } else {
      var f := def.fields[n - 1];
      TidyEnd(def, r, n - 1);
      FieldsSoFar(def, n - 1);
      LaidBack(def, n - 1);
      LaidRight(def, n - 1);
      var e, prev := ElemOf(def, n - 1).value, LaidTo(def, n - 1).value;
      var g := r.fields[n - 1];
      assert g == r.fields[..n][n - 1] == Place(prev, f, e).fields[n - 1];
      PlacedField(prev, f, e);
      ElemIs(def, n - 1);
      TidyElem(def, r, n - 1);
      LaidNone(def);
      ExtentIs(g.count, g.size);
      SizeInExtent(g.count, g.size);
      TidyPlace(def, r, n, prev, e);
      EndStep(def, r.fields, n);
      assert EndOf(r.fields, n) == Last(g) by { EndIsLast(r.fields, n); }
      if IdealEnd(def, n) > 0 && IdealEnd(def, n - 1) == 0 {
        ZeroUp(TypeAlign(f.kind));
        assert r.fields[n - 1].offset == 0;
      }
    }
  }

  lemma ZeroUp(a: nat)
    requires PowerTo8(a)
    ensures RoundUp(0, a) == 0
  {
    RoundsUp(0, a);
  }

  lemma EndIsLast(fields: seq<Field>, n: nat)
    requires 0 < n <= |fields|
    ensures EndOf(fields, n) == Last(fields[n - 1])
  {
  }

  /** A field that would be placed on top of the one at the front is not empty, so they would share a
      byte. */
  lemma TidyPlace(def: Def, r: Rep, n: nat, prev: Laid, e: Elem)
    requires 0 < n <= |def.fields| == |r.fields| && Tidy(r) && prev.offset == IdealEnd(def, n - 1)
    requires var a := TypeAlign(def.fields[n - 1].kind); e.align == a || (e.align == 0 && a == 1 && prev.offset == 0)
    requires e.size == TypeSize(def.fields[n - 1].kind) && r.fields[n - 1].size == e.size
    requires e.size <= Extent(r.fields[n - 1].count, r.fields[n - 1].size)
    requires r.fields[n - 1].offset == AlignMask(prev.offset, e.align)
    requires prev.offset > 0 ==> Fronted(r.fields, n - 1)
    ensures r.fields[n - 1].offset == RoundUp(IdealEnd(def, n - 1), TypeAlign(def.fields[n - 1].kind))
  {
    hide AlignMask, Extent, RoundUp, IdealEnd, TypeSize, TypeAlign;
    var t, x := def.fields[n - 1].kind, prev.offset;
    var a := TypeAlign(t);
    if e.align == 0 {
      MaskOfVoid(0);
      ZeroUp(1);
    } else {
      MaskRoundsUp(x, a);
      RoundsUp(x, a);
      if RoundUp(x, a) >= WORD {
        WrapsToFront(x, a);
        var i :| 0 <= i < n - 1 && r.fields[i].offset == 0 && Extent(r.fields[i].count, r.fields[i].size) > 0;
        if e.size == 0 {
          EmptyType(t);
        }
        assert false;
      }
    }
  }

  lemma {:induction false} TidyElem(def: Def, r: Rep, i: nat)
    requires i < |def.fields| && ElemOf(def, i).Some? && i < |r.fields|
    requires r.fields[i].kind == ElemOf(def, i).value.shape && TidyField(r.fields[i])
    ensures ElemOf(def, i).value.size == TypeSize(def.fields[i].kind)
    decreases def, i, 0
  {
    hide LaidTo, AlignMask, LayoutOk, RoundUp, IdealEnd, Cast;
    if def.fields[i].kind.Struct? {
      var d := def.fields[i].kind.def;
      CastEither(d);
      TidyFits(d, r.fields[i].kind.rep);
      CastRight(d, true);
    }
  }

  lemma {:induction false} TidyFits(def: Def, r: Rep)
    requires Cast(def, true) == Some(r) && Tidy(r)
    ensures IdealSize(def) < WORD
    decreases def, |def.fields| + 1, 0
  {
    hide AlignMask, RoundUp, NestedOk, FieldAlign, LaidTo, IdealEnd, FieldsOk, Extent, EndOf;
    var n := |def.fields|;
    TidyEnd(def, r, n);
    LaidRight(def, n);
    AlignIs(def, n);
    MaskRoundsUp(IdealEnd(def, n), r.alignment);
    NoWrap(IdealEnd(def, n), r.alignment);
  }

  /** For a definition whose true size does not fit, and for no other, the computed layout gives two
      values a common byte or puts one past the end of its structure. */
  lemma TidyIffFits(def: Def)
    requires Cast(def, true).Some?
    ensures Tidy(Cast(def, true).value) <==> IdealSize(def) < WORD
  {
    hide LayoutOk, Cast, IdealSize, Tidy;
    var r := Cast(def, true).value;
    if Tidy(r) { TidyFits(def, r); }
    if IdealSize(def) < WORD {
      CastRight(def, true);
      LayoutTidy(r);
    }
  }

  /** The layout computed for an accepted definition is a C layout if and only if the structure's
      size fits 32 bits. */
  lemma LayoutIffFits(def: Def)
    requires Cast(def, true).Some?
    ensures LayoutOk(Cast(def, true).value) <==> IdealSize(def) < WORD
    ensures IdealSize(def) < WORD ==> Cast(def, true).value.size == IdealSize(def)
  {
    hide LayoutOk, Cast, IdealSize;
    var r := Cast(def, true).value;
    if LayoutOk(r) { MustFit(def, r); }
    if IdealSize(def) < WORD { CastRight(def, true); }
  }

  /** A definition that does not fit: half a giga of 8-byte integers, and an int whose offset starts
      over at 0. */
  lemma TooLarge(def: Def)
    requires def == Def([FieldDef("a", Plain(Int64), 0x2000_0000), FieldDef("b", Plain(Int), 0)])
    ensures Cast(def, false).Some? && |Cast(def, false).value.fields| == 2
    ensures Cast(def, false).value.fields[1].offset == 0 && Cast(def, false).value.size == 8
    ensures Cast(def, false).value.fields[0].offset == 0
    ensures Cast(def, false).value.fields[1].kind == Basic(Int) && Cast(def, false).value.fields[1].count == 0
  {
    hide AlignMask, LaidTo, ElemOf, Place, Times;
    PlainElem(def, 0);
    PlainElem(def, 1);
    LaidNone(def);
    LaidStep(def, 0);
    LaidStep(def, 1);
    FirstWraps(def.fields[0], def.fields[1]);
    MaskRoundsUp(4, 8);
    assert RoundUp(4, 8) == 8;
  }

  lemma PlainElem(def: Def, i: nat)
    requires i < |def.fields| && def.fields[i].kind.Plain?
        && (def.fields[i].kind.prim.Int? || def.fields[i].kind.prim.Int64?)
    ensures ElemOf(def, i) ==
        Some(Elem(Width(def.fields[i].kind.prim), Width(def.fields[i].kind.prim), Basic(def.fields[i].kind.prim)))
  {
  }

  lemma FirstWraps(a: FieldDef, b: FieldDef)
    requires a.count == 0x2000_0000 && b.count == 0
    ensures var l := Place(Laid([], 0, 1), a, Elem(8, 8, Basic(Int64)));
            l.offset == 0 && l.align == 8 && |l.fields| == 1 && l.fields[0].offset == 0
                && Place(l, b, Elem(4, 4, Basic(Int))).align == 8 &&
            |Place(l, b, Elem(4, 4, Basic(Int))).fields| == 2
                && Place(l, b, Elem(4, 4, Basic(Int))).fields[1] == Field(b.name, Basic(Int), 0, 0, 4)
                && Place(l, b, Elem(4, 4, Basic(Int))).fields[0] == l.fields[0] &&
            Place(l, b, Elem(4, 4, Basic(Int))).offset == 4
  {
    hide AlignMask, RoundUp;
    MaskRoundsUp(0, 8);
    MaskRoundsUp(0, 4);
  }
}

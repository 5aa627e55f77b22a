/** Layout of C structures: offsets, alignment and size, in 32-bit arithmetic as the code does it. */
module CStructLayout {
  import opened Basics
  import opened Alignment

  datatype Prim = Void | Boolean | Char | UChar | Short | UShort | Int | UInt | Int64 | UInt64 | CbSize

  /** The element count of an array field; 0 stands for a scalar. */
  type Count = x: int | 0 <= x < 0x8000_0000

  /** A definition as the script gives it. */
  datatype Type = Plain(prim: Prim) | Struct(def: Def)
  datatype FieldDef = FieldDef(name: string, kind: Type, count: Count)
  datatype Def = Def(fields: seq<FieldDef>)

  /** TwapiCStructRep and TwapiCStructField. */
  datatype Shape = Basic(prim: Prim) | Nested(rep: Rep)
  datatype Field = Field(name: string, kind: Shape, count: Count, offset: Word, size: Word)
  datatype Rep = Rep(size: Word, alignment: Word, fields: seq<Field>)

  function Width(p: Prim): nat {
    match p
    case Void => 0
    case Char | UChar => 1
    case Short | UShort => 2
    case Boolean | Int | UInt | CbSize => 4
    case Int64 | UInt64 => 8
  }

  // ----- the computation

  /** What the field's type gives: element size, field alignment, and the shape to store. */
  datatype Elem = Elem(size: Word, align: Word, shape: Shape)

  /** The loop's state: the fields so far, the running offset, the running alignment. */
  datatype Laid = Laid(fields: seq<Field>, offset: Word, align: Word)

  function Max(x: Word, y: Word): Word {
    if x > y then x else y
  }

  /** The bytes a field takes. */
  function Extent(count: Count, size: Word): nat {
    if count == 0 then size else Times(count, size)
  }

  function Place(l: Laid, f: FieldDef, e: Elem): Laid {
    var offset := AlignMask(l.offset, e.align);
    Laid(l.fields + [Field(f.name, e.shape, f.count, offset, e.size)], (offset + Extent(f.count, e.size)) % WORD,
        Max(e.align, l.align))
  }

  function ElemOf(def: Def, i: nat): Option<Elem>
    requires i < |def.fields|
    decreases def, i, 0
  {
    var f := def.fields[i];
    match f.kind
    case Plain(p) =>
      if (p.Void? && |def.fields| != 1) || (p.CbSize? && f.count > 0) then None
      else Some(Elem(Width(p), Width(p), Basic(p)))
    case Struct(d) =>
      var r := Cast(d, false);
      if r.None? then None else Some(Elem(r.value.size, r.value.alignment, Nested(r.value)))
  }

  function LaidTo(def: Def, n: nat): Option<Laid>
    requires n <= |def.fields|
    decreases def, n, 1
  {
    if n == 0 then Some(Laid([], 0, 1))
    else
      var l, e := LaidTo(def, n - 1), ElemOf(def, n - 1);
      if l.None? || e.None? then None else Some(Place(l.value, def.fields[n - 1], e.value))
  }

  function Finish(l: Laid): Rep {
    Rep(AlignMask(l.offset, l.align), l.align, l.fields)
  }

  function Cast(def: Def, allowEmpty: bool): Option<Rep>
    decreases def, |def.fields| + 1, 0
  {
    if def.fields == [] && !allowEmpty then None
    else
      var l := LaidTo(def, |def.fields|);
      if l.None? then None else Some(Finish(l.value))
  }

  /** ObjCastToCStruct. */
  method CastToCStruct(def: Def, allowEmpty: bool) returns (r: Option<Rep>)
    ensures r == Cast(def, allowEmpty)
    decreases def, |def.fields| + 1
  {
    hide AlignMask, LaidTo, ElemOf, Extent;
    if def.fields == [] && !allowEmpty {
      return None;
    }
    var fields: seq<Field>, offset: Word, structAlignment: Word := [], 0, 1;
    LaidNone(def);
    for i := 0 to |def.fields|
      invariant LaidTo(def, i) == Some(Laid(fields, offset, structAlignment))
    {
      var f := def.fields[i];
      var e := FieldType(def, i);
      LaidStep(def, i);
      if e.None? {
        NoneAfter(def, i + 1, |def.fields|);
        return None;
      }
      if e.value.align > structAlignment {
        structAlignment := e.value.align;
      }
      offset := AlignMask(offset, e.value.align);
      fields := fields + [Field(f.name, e.value.shape, f.count, offset, e.value.size)];
      offset := (offset + Extent(f.count, e.value.size)) % WORD;
    }
    r := Some(Rep(AlignMask(offset, structAlignment), structAlignment, fields));
  }

  /** The switch on the field's type. */
  method FieldType(def: Def, i: nat) returns (r: Option<Elem>)
    requires i < |def.fields|
    ensures r == ElemOf(def, i)
    decreases def, i
  {
    hide Cast;
    var f := def.fields[i];
    match f.kind {
      case Plain(p) =>
        if (p.Void? && |def.fields| != 1) || (p.CbSize? && f.count > 0) {
          return None;
        }
        r := Some(Elem(Width(p), Width(p), Basic(p)));
      case Struct(d) =>
        var child := CastToCStruct(d, false);
        if child.None? {
          return None;
        }
        r := Some(Elem(child.value.size, child.value.alignment, Nested(child.value)));
    }
  }

  lemma LaidNone(def: Def)
    ensures LaidTo(def, 0) == Some(Laid([], 0, 1))
  {
  }

  lemma LaidStep(def: Def, i: nat)
    requires i < |def.fields| && LaidTo(def, i).Some?
    ensures LaidTo(def, i + 1) ==
            if ElemOf(def, i).None? then None
                else Some(Place(LaidTo(def, i).value, def.fields[i], ElemOf(def, i).value))
  {
  }

  lemma {:induction false} NoneAfter(def: Def, n: nat, m: nat)
    requires n <= m <= |def.fields| && LaidTo(def, n).None?
    ensures LaidTo(def, m).None?
    decreases m
  {
    if n < m { NoneAfter(def, n, m - 1); }
  }

  /** Every alignment is 1, 2, 4 or 8 (0 for a void field). */
  lemma {:induction false} LaidAligned(def: Def, n: nat)
    requires n <= |def.fields| && LaidTo(def, n).Some?
    ensures PowerTo8(LaidTo(def, n).value.align) && |LaidTo(def, n).value.fields| == n
    decreases def, n, 1
  {
    if n > 0 {
      LaidAligned(def, n - 1);
      ElemAligned(def, n - 1);
    }
  }

  lemma {:induction false} ElemAligned(def: Def, i: nat)
    requires i < |def.fields| && ElemOf(def, i).Some?
    ensures var e := ElemOf(def, i).value; PowerTo8(e.align) || (e.align == 0 && e.shape == Basic(Void))
    decreases def, i, 0
  {
    if def.fields[i].kind.Struct? { CastAligned(def.fields[i].kind.def, false); }
  }

  lemma {:induction false} CastAligned(def: Def, allowEmpty: bool)
    requires Cast(def, allowEmpty).Some?
    ensures PowerTo8(Cast(def, allowEmpty).value.alignment)
    decreases def, |def.fields| + 1, 0
  {
    LaidAligned(def, |def.fields|);
  }

  // ----- which definitions are accepted

  predicate ValidDef(def: Def) {
    forall i :: 0 <= i < |def.fields| ==> ValidField(def.fields[i], |def.fields|)
  }

  predicate ValidField(f: FieldDef, n: nat) {
    match f.kind
    case Plain(p) => (p.Void? ==> n == 1) && (p.CbSize? ==> f.count == 0)
    case Struct(d) => d.fields != [] && ValidDef(d)
  }

  /** A definition is rejected exactly when it is empty where it may not be, has a void field that
      is not alone, an array of sizes, or a nested structure that is rejected. */
  lemma {:induction false} CastIffValid(def: Def, allowEmpty: bool)
    ensures Cast(def, allowEmpty).Some? <==> (def.fields != [] || allowEmpty) && ValidDef(def)
    decreases def, |def.fields| + 1
  {
    LaidIffValid(def, |def.fields|);
  }

  lemma {:induction false} LaidIffValid(def: Def, n: nat)
    requires n <= |def.fields|
    ensures LaidTo(def, n).Some? <==> forall i :: 0 <= i < n ==> ValidField(def.fields[i], |def.fields|)
    decreases def, n
  {
    if n > 0 {
      LaidIffValid(def, n - 1);
      if def.fields[n - 1].kind.Struct? { CastIffValid(def.fields[n - 1].kind.def, false); }
      assert ElemOf(def, n - 1).Some? <==> ValidField(def.fields[n - 1], |def.fields|);
    }
  }
}

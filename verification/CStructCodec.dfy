/** Encoding a value into memory laid out as a C structure, and decoding it. */
module CStructCodec {
  import opened Basics
  import opened CStructLayout
  import opened LayoutFacts
  import opened CStructValues

  // ----- what a member shows depends on its own bytes only

  ghost predicate Same(s: seq<Byte>, s': seq<Byte>, from: nat, to: nat) {
    |s| == |s'| && forall i :: from <= i < to && i < |s| ==> s[i] == s'[i]
  }

  predicate SizeIs(k: Shape, size: Word) {
    match k
    case Basic(p) => size == Width(p)
    case Nested(r) => size == r.size
  }

  ghost predicate ShapeOk(k: Shape) {
    k.Nested? ==> LayoutOk(k.rep)
  }

  lemma FieldShape(r: Rep, i: nat)
    requires LayoutOk(r) && i < |r.fields|
    ensures SizeIs(r.fields[i].kind, r.fields[i].size) && ShapeOk(r.fields[i].kind)
    ensures EndOf(r.fields, i) <= r.fields[i].offset && EndOf(r.fields, i + 1) <= r.size
    ensures EndOf(r.fields, i + 1) == r.fields[i].offset + Extent(r.fields[i].count, r.fields[i].size)
  {
    hide LayoutOk;
    FieldPlaced(r, i);
    EndsInside(r, i + 1);
  }

  lemma {:induction false} ElemLocal(k: Shape, size: Word, s: seq<Byte>, s': seq<Byte>, at: nat, keys: bool)
    requires ShapeOk(k) && SizeIs(k, size) && Same(s, s', at, at + size)
    ensures ElemShown(k, s, at, keys) == ElemShown(k, s', at, keys)
    decreases k, 0
  {
    hide LayoutOk;
    match k
    case Basic(p) => RawLocal(s, s', at, Width(p));
    case Nested(r) => RowLocal(r, s, s', at, |r.fields|, keys); EndsInside(r, |r.fields|);
  }

  lemma TimesSum(n: nat, d: nat, size: nat)
    ensures Times(n + d, size) == Times(n, size) + Times(d, size)
  {
    assert (n + d) * size == n * size + d * size;
  }

  lemma TimesBelow(n: nat, count: nat, size: nat)
    requires n < count
    ensures Times(n, size) + size <= Times(count, size) && Times(n + 1, size) == Times(n, size) + size
  {
    assert Times(1, size) == size;
    hide Times;
    TimesSum(n, 1, size);
    TimesSum(n + 1, count - n - 1, size);
  }

  lemma {:induction false} ArrayLocal(k: Shape, size: Word, s: seq<Byte>, s': seq<Byte>, at: nat, n: nat, keys: bool)
    requires ShapeOk(k) && SizeIs(k, size) && Same(s, s', at, at + Times(n, size))
    ensures ArrayShown(k, s, at, size, n, keys) == ArrayShown(k, s', at, size, n, keys)
    decreases k, n + 1
  {
    hide LayoutOk, Times;
    if n > 0 {
      TimesBelow(n - 1, n, size);
      ArrayLocal(k, size, s, s', at, n - 1, keys);
      ElemLocal(k, size, s, s', at + Times(n - 1, size), keys);
    }
  }

  lemma {:induction false} FieldLocal(f: Field, s: seq<Byte>, s': seq<Byte>, at: nat, keys: bool)
    requires ShapeOk(f.kind) && SizeIs(f.kind, f.size)
        && Same(s, s', at + f.offset, at + f.offset + Extent(f.count, f.size))
    ensures FieldShown(f, s, at, keys) == FieldShown(f, s', at, keys)
    decreases f
  {
    hide LayoutOk, Times, ElemShown, ArrayShown, Same, SizeIs;
    if f.count == 0 {
      ElemLocal(f.kind, f.size, s, s', at + f.offset, keys);
    } else {
      ArrayLocal(f.kind, f.size, s, s', at + f.offset, f.count, keys);
    }
  }

  lemma {:induction false} RowLocal(r: Rep, s: seq<Byte>, s': seq<Byte>, at: nat, n: nat, keys: bool)
    requires LayoutOk(r) && n <= |r.fields| && Same(s, s', at, at + r.size)
    ensures RowShown(r, s, at, n, keys) == RowShown(r, s', at, n, keys)
    decreases r, n
  {
    hide LayoutOk, EndOf, Extent, FieldShown;
    if n > 0 {
      RowLocal(r, s, s', at, n - 1, keys);
      FieldShape(r, n - 1);
      FieldLocal(r.fields[n - 1], s, s', at, keys);
    }
  }

  /** The fields before the end of field `n` do not see bytes from there on. */
  lemma {:induction false} RowBefore(r: Rep, s: seq<Byte>, s': seq<Byte>, at: nat, n: nat, keys: bool)
    requires LayoutOk(r) && n <= |r.fields| && Same(s, s', at, at + EndOf(r.fields, n))
    ensures RowShown(r, s, at, n, keys) == RowShown(r, s', at, n, keys)
    decreases n
  {
    hide LayoutOk, EndOf, Extent, FieldShown;
    if n > 0 {
      FieldShape(r, n - 1);
      RowBefore(r, s, s', at, n - 1, keys);
      FieldLocal(r.fields[n - 1], s, s', at, keys);
    }
  }

  // ----- where every number lies

  /** The number stored for a value in a basic type. */
  function NumberStored(p: Prim, v: Value): Option<nat> {
    var n := Number(v);
    if n.None? then None else Stored(p, n.value)
  }

  /** The memory holds the value: every number of it, in arrays and in nested structures too, little-endian
      at the place of its element. */
  ghost predicate ElemBytes(k: Shape, v: Value, s: seq<Byte>, at: nat)
    decreases k, 0
  {
    match k
    case Basic(p) =>
      NumberStored(p, v).Some? && Digits(s, at, Width(p), NumberStored(p, v).value)
    case Nested(r) => StructBytes(r, v, s, at)
  }

  ghost predicate FieldBytes(f: Field, structSize: Word, v: Value, s: seq<Byte>, at: nat)
    decreases f
  {
    if f.count > 0 then
      f.count <= |Elements(v)| &&
      forall j: nat :: j < f.count ==> ElemBytes(f.kind, Elements(v)[j], s, at + f.offset + Times(j, f.size))
    else if f.kind == Basic(CbSize) then
      Number(v).Some? && StoredSize(Number(v).value, structSize).Some? &&
      Digits(s, at + f.offset, 4, StoredSize(Number(v).value, structSize).value)
    else ElemBytes(f.kind, v, s, at + f.offset)
  }

  ghost predicate StructBytes(r: Rep, v: Value, s: seq<Byte>, at: nat)
    decreases r
  {
    |Elements(v)| == |r.fields| &&
    forall i :: 0 <= i < |r.fields| ==> FieldBytes(r.fields[i], r.size, Elements(v)[i], s, at)
  }

  lemma {:induction false} ElemBytesShow(k: Shape, v: Value, s: seq<Byte>, at: nat)
    requires ElemBytes(k, v, s, at)
    ensures ElemCanon(k, v, false) == Some(ElemShown(k, s, at, false))
    decreases k, 0
  {
    hide Stored, Shows, Canon, Shown, StructBytes;
    match k
    case Basic(p) =>
      StoredFits(p, Number(v).value);
      DigitsRaw(s, at, Width(p), NumberStored(p, v).value);
    case Nested(r) => BytesShow(r, v, s, at);
  }

  lemma {:induction false} ArrayBytesShow(k: Shape, items: seq<Value>, s: seq<Byte>, at: nat, size: Word, n: nat)
    requires n <= |items| && forall j: nat :: j < n ==> ElemBytes(k, items[j], s, at + Times(j, size))
    ensures ArrayCanon(k, items, n, false) == Some(ArrayShown(k, s, at, size, n, false))
    decreases k, n + 1
  {
    hide ElemBytes, ElemCanon, ElemShown, Times;
    if n > 0 {
      ArrayBytesShow(k, items, s, at, size, n - 1);
      ElemBytesShow(k, items[n - 1], s, at + Times(n - 1, size));
    }
  }

  lemma {:induction false} FieldBytesShow(f: Field, structSize: Word, v: Value, s: seq<Byte>, at: nat)
    requires FieldBytes(f, structSize, v, s, at)
    ensures FieldCanon(f, structSize, v, false) == Some(FieldShown(f, s, at, false))
    decreases f
  {
    hide ElemBytes, ElemCanon, ElemShown, Times, StoredSize;
    if f.count > 0 {
      ArrayBytesShow(f.kind, Elements(v), s, at + f.offset, f.size, f.count);
    } else if f.kind == Basic(CbSize) {
      SizeRange(structSize);
      SizeFits(Number(v).value, structSize);
      var raw := StoredSize(Number(v).value, structSize).value;
      DigitsRaw(s, at + f.offset, 4, raw);
      ShowsSize(raw);
      ElemIsShown(CbSize, s, at + f.offset);
    } else {
      ElemBytesShow(f.kind, v, s, at + f.offset);
    }
  }

  lemma SizeFits(n: int, size: Word)
    requires StoredSize(n, size).Some?
    ensures StoredSize(n, size).value <= size
  {
  }

  lemma ElemIsShown(p: Prim, s: seq<Byte>, at: nat)
    ensures ElemShown(Basic(p), s, at, false) == Num(Shows(p, Raw(s, at, Width(p))))
  {
  }

  lemma {:induction false} RowBytesShow(r: Rep, items: seq<Value>, s: seq<Byte>, at: nat, n: nat)
    requires n <= |r.fields| && |items| == |r.fields|
    requires forall i :: 0 <= i < |r.fields| ==> FieldBytes(r.fields[i], r.size, items[i], s, at)
    ensures RowCanon(r, items, n, false) == Some(RowShown(r, s, at, n, false))
    decreases r, n
  {
    hide FieldBytes, FieldCanon, FieldShown, Column;
    if n > 0 {
      RowBytesShow(r, items, s, at, n - 1);
      FieldBytesShow(r.fields[n - 1], r.size, items[n - 1], s, at);
    }
  }

  /** Memory that holds a value shows its canonical form. */
  lemma {:induction false} BytesShow(r: Rep, v: Value, s: seq<Byte>, at: nat)
    requires StructBytes(r, v, s, at)
    ensures Canon(r, v, false) == Some(Shown(r, s, at, false))
    decreases r, |r.fields| + 1
  {
    hide RowCanon, RowShown, FieldBytes;
    RowBytesShow(r, Elements(v), s, at, |r.fields|);
  }

  lemma {:induction false} ElemBytesLocal(k: Shape, size: Word, v: Value, s: seq<Byte>, s': seq<Byte>, at: nat)
    requires ShapeOk(k) && SizeIs(k, size) && Same(s, s', at, at + size) && ElemBytes(k, v, s, at)
    ensures ElemBytes(k, v, s', at)
    decreases k, 0
  {
    hide LayoutOk, StructBytes;
    if k.Nested? { StructBytesLocal(k.rep, v, s, s', at); }
  }

  lemma {:induction false} FieldBytesLocal(f: Field, structSize: Word, v: Value, s: seq<Byte>, s': seq<Byte>, at: nat)
    requires ShapeOk(f.kind) && SizeIs(f.kind, f.size) && FieldBytes(f, structSize, v, s, at)
    requires Same(s, s', at + f.offset, at + f.offset + Extent(f.count, f.size))
    ensures FieldBytes(f, structSize, v, s', at)
    decreases f
  {
    hide LayoutOk, ElemBytes, Times;
    if f.count > 0 {
      forall j: nat | j < f.count ensures ElemBytes(f.kind, Elements(v)[j], s', at + f.offset + Times(j, f.size)) {
        TimesBelow(j, f.count, f.size);
        ElemBytesLocal(f.kind, f.size, Elements(v)[j], s, s', at + f.offset + Times(j, f.size));
      }
    } else if f.kind != Basic(CbSize) {
      ElemBytesLocal(f.kind, f.size, v, s, s', at + f.offset);
    }
  }

  lemma {:induction false} StructBytesLocal(r: Rep, v: Value, s: seq<Byte>, s': seq<Byte>, at: nat)
    requires LayoutOk(r) && Same(s, s', at, at + r.size) && StructBytes(r, v, s, at)
    ensures StructBytes(r, v, s', at)
    decreases r
  {
    hide LayoutOk, FieldBytes, EndOf, Extent;
    forall i | 0 <= i < |r.fields| ensures FieldBytes(r.fields[i], r.size, Elements(v)[i], s', at) {
      FieldShape(r, i);
      FieldBytesLocal(r.fields[i], r.size, Elements(v)[i], s, s', at);
    }
  }

  /** The fields before the end of field `n` are not touched from there on. */
  lemma FieldsBefore(r: Rep, items: seq<Value>, s: seq<Byte>, s': seq<Byte>, at: nat, n: nat)
    requires LayoutOk(r) && n <= |r.fields| == |items| && Same(s, s', at, at + EndOf(r.fields, n))
    requires forall i :: 0 <= i < n ==> FieldBytes(r.fields[i], r.size, items[i], s, at)
    ensures forall i :: 0 <= i < n ==> FieldBytes(r.fields[i], r.size, items[i], s', at)
  {
    hide LayoutOk, FieldBytes, EndOf, Extent;
    forall i | 0 <= i < n ensures FieldBytes(r.fields[i], r.size, items[i], s', at) {
      FieldShape(r, i);
      EndsRise(r, i + 1, n);
      FieldBytesLocal(r.fields[i], r.size, items[i], s, s', at);
    }
  }

  lemma {:induction false} EndsRise(r: Rep, i: nat, n: nat)
    requires LayoutOk(r) && i <= n <= |r.fields|
    ensures EndOf(r.fields, i) <= EndOf(r.fields, n)
    decreases n
  {
    hide LayoutOk, EndOf, Extent;
    if i < n {
      EndsRise(r, i, n - 1);
      FieldShape(r, n - 1);
    }
  }

  // ----- the encoder

  /** Writes a number little-endian. */
  method Store(buf: array<Byte>, at: nat, w: nat, raw: nat)
    requires at + w <= buf.Length && raw < Range(w)
    modifies buf
    ensures Raw(buf[..], at, w) == raw && Digits(buf[..], at, w, raw)
    ensures Same(old(buf[..]), buf[..], 0, at) && Same(old(buf[..]), buf[..], at + w, buf.Length)
    decreases w
  {
    if w > 0 {
      buf[at] := raw % 0x100;
      Store(buf, at + 1, w - 1, raw / 0x100);
    }
    RawDigits(buf[..], at, w);
  }

  method EncodeElem(k: Shape, size: Word, v: Value, buf: array<Byte>, at: nat, ghost keys: bool) returns (ok: bool)
    requires ShapeOk(k) && SizeIs(k, size) && at + size <= buf.Length
    modifies buf
    ensures ok <==> ElemCanon(k, v, keys).Some?
    ensures ok ==> ElemShown(k, buf[..], at, keys) == ElemCanon(k, v, keys).value
    ensures ok ==> ElemBytes(k, v, buf[..], at)
    ensures Same(old(buf[..]), buf[..], 0, at) && Same(old(buf[..]), buf[..], at + size, buf.Length)
    decreases k, 0
  {
    hide LayoutOk, Stored, Shows, Canon, Shown, StructBytes, Digits;
    match k {
      case Basic(p) =>
        var n := Number(v);
        if n.None? {
          return false;
        }
        var raw := Stored(p, n.value);
        if raw.None? {
          return false;
        }
        StoredFits(p, n.value);
        Store(buf, at, Width(p), raw.value);
        ok := true;
      case Nested(r) =>
        ok := Encode(r, v, size, buf, at, keys);
    }
  }

  method EncodeArray(k: Shape, size: Word, items: seq<Value>, count: nat, buf: array<Byte>, at: nat, ghost keys: bool)
      returns (ok: bool)
    requires ShapeOk(k) && SizeIs(k, size) && count <= |items| && at + Times(count, size) <= buf.Length
    modifies buf
    ensures ok <==> ArrayCanon(k, items, count, keys).Some?
    ensures ok ==> ArrayShown(k, buf[..], at, size, count, keys) == ArrayCanon(k, items, count, keys).value
    ensures ok ==> forall j: nat :: j < count ==> ElemBytes(k, items[j], buf[..], at + Times(j, size))
    ensures Same(old(buf[..]), buf[..], 0, at) && Same(old(buf[..]), buf[..], at + Times(count, size), buf.Length)
    decreases k, 1
  {
    hide LayoutOk, Times, ElemCanon, ElemShown, ElemBytes, Same;
    TimesNone(size);
    SameSelf(buf[..]);
    var pos := at;
    for j := 0 to count
      invariant pos == at + Times(j, size) && pos <= at + Times(count, size)
      invariant ArrayCanon(k, items, j, keys).Some?
          && ArrayShown(k, buf[..], at, size, j, keys) == ArrayCanon(k, items, j, keys).value
      invariant forall i: nat :: i < j ==> ElemBytes(k, items[i], buf[..], at + Times(i, size))
      invariant Same(old(buf[..]), buf[..], 0, at) && Same(old(buf[..]), buf[..], at + Times(count, size), buf.Length)
    {
      TimesBelow(j, count, size);
      ghost var was := buf[..];
      ok := EncodeElem(k, size, items[j], buf, pos, keys);
      if !ok {
        SameTwice(old(buf[..]), was, buf[..], 0, at, 0, pos, 0, at);
        SameTwice(old(buf[..]), was, buf[..], at + Times(count, size), buf.Length, pos + size, buf.Length,
            at + Times(count, size), buf.Length);
        NoArray(k, items, j + 1, count, keys);
        return;
      }
      SameLess(was, buf[..], 0, pos, at, at + Times(j, size));
      ArrayLocal(k, size, was, buf[..], at, j, keys);
      forall i: nat | i < j ensures ElemBytes(k, items[i], buf[..], at + Times(i, size)) {
        TimesBelow(i, j, size);
        SameLess(was, buf[..], 0, pos, at + Times(i, size), at + Times(i, size) + size);
        ElemBytesLocal(k, size, items[i], was, buf[..], at + Times(i, size));
      }
      SameTwice(old(buf[..]), was, buf[..], 0, at, 0, pos, 0, at);
      SameTwice(old(buf[..]), was, buf[..], at + Times(count, size), buf.Length, pos + size, buf.Length,
          at + Times(count, size), buf.Length);
      pos := pos + size;
    }
    ok := true;
  }

  lemma SameSelf(s: seq<Byte>)
    ensures forall i: nat, j: nat :: Same(s, s, i, j)
  {
  }

  lemma SameLess(s: seq<Byte>, s': seq<Byte>, from: nat, to: nat, from': nat, to': nat)
    requires Same(s, s', from, to) && from <= from' && to' <= to
    ensures Same(s, s', from', to')
  {
  }

  lemma SameTwice(s: seq<Byte>, t: seq<Byte>, u: seq<Byte>, i: nat, j: nat, i': nat, j': nat, from: nat, to: nat)
    requires Same(s, t, i, j) && Same(t, u, i', j') && i <= from && i' <= from && to <= j && to <= j'
    ensures Same(s, u, from, to)
  {
  }

  lemma TimesNone(size: nat)
    ensures Times(0, size) == 0
  {
  }

  lemma {:induction false} NoArray(k: Shape, items: seq<Value>, n: nat, count: nat, keys: bool)
    requires n <= count <= |items| && ArrayCanon(k, items, n, keys).None?
    ensures ArrayCanon(k, items, count, keys).None?
    decreases count
  {
    if n < count { NoArray(k, items, n, count - 1, keys); }
  }

  /** One field; no byte outside the field changes. */
  method EncodeField(f: Field, structSize: Word, v: Value, buf: array<Byte>, at: nat, ghost keys: bool)
      returns (ok: bool)
    requires ShapeOk(f.kind) && SizeIs(f.kind, f.size) && at + f.offset + Extent(f.count, f.size) <= buf.Length
    modifies buf
    ensures ok <==> FieldCanon(f, structSize, v, keys).Some?
    ensures ok ==> FieldShown(f, buf[..], at, keys) == FieldCanon(f, structSize, v, keys).value
    ensures ok ==> FieldBytes(f, structSize, v, buf[..], at)
    ensures Same(old(buf[..]), buf[..], 0, at + f.offset)
    ensures Same(old(buf[..]), buf[..], at + f.offset + Extent(f.count, f.size), buf.Length)
    decreases f
  {
    hide LayoutOk, Times, Stored, Shows, ArrayCanon, ArrayShown, Canon, Shown, StructBytes, Digits;
    if f.count > 0 {
      var items := Elements(v);
      if f.count > |items| {
        return false;
      }
      ok := EncodeArray(f.kind, f.size, items, f.count, buf, at + f.offset, keys);
    } else {
      ok := EncodeElem(f.kind, f.size, v, buf, at + f.offset, keys);
      if ok && f.kind == Basic(CbSize) {
        ghost var was := buf[..];
        var raw := Stored(CbSize, Number(v).value).value;
        ShowsSize(raw);
        ok := CheckSize(raw, structSize, buf, at + f.offset);
        SameTwice(old(buf[..]), was, buf[..], 0, at + f.offset, 0, at + f.offset, 0, at + f.offset);
        SameTwice(old(buf[..]), was, buf[..], at + f.offset + 4, buf.Length, at + f.offset + 4, buf.Length,
            at + f.offset + 4, buf.Length);
        ShowsSize(if raw == 0 then structSize else raw);
      }
    }
  }

  /** A size field that has been stored is checked, and filled in if it is 0. */
  method CheckSize(raw: nat, structSize: Word, buf: array<Byte>, at: nat) returns (ok: bool)
    requires at + 4 <= buf.Length && Digits(buf[..], at, 4, raw)
    modifies buf
    ensures ok <==> raw <= structSize
    ensures ok ==> Digits(buf[..], at, 4, if raw == 0 then structSize else raw)
    ensures ok ==> Raw(buf[..], at, 4) == if raw == 0 then structSize else raw
    ensures Same(old(buf[..]), buf[..], 0, at) && Same(old(buf[..]), buf[..], at + 4, buf.Length)
  {
    hide Digits, Range, Raw;
    SizeRange(structSize);
    ok := raw <= structSize;
    if ok && raw == 0 {
      Store(buf, at, 4, structSize);
    }
    if ok {
      DigitsRaw(buf[..], at, 4, if raw == 0 then structSize else raw);
    }
  }

  lemma ShowsSize(raw: nat)
    ensures Shows(CbSize, raw) == raw
  {
  }

  lemma SizeRange(size: Word)
    ensures size < Range(4)
  {
    assert Range(4) == WORD;
  }

  /** ParseCStructHelper. It succeeds exactly when the value has a canonical form, and then the
      structure in the buffer shows that form; no byte outside the structure changes. */
  method Encode(r: Rep, v: Value, size: Word, buf: array<Byte>, at: nat, ghost keys: bool) returns (ok: bool)
    requires LayoutOk(r) && at + r.size <= buf.Length
    modifies buf
    ensures ok <==> size == r.size && Canon(r, v, keys).Some?
    ensures ok ==> Shown(r, buf[..], at, keys) == Canon(r, v, keys).value
    ensures ok ==> StructBytes(r, v, buf[..], at)
    ensures Same(old(buf[..]), buf[..], 0, at) && Same(old(buf[..]), buf[..], at + r.size, buf.Length)
    decreases r
  {
    hide LayoutOk, FieldCanon, FieldShown, FieldBytes, Column, EndOf, Extent;
    if r.size != size {
      return false;
    }
    var items := Elements(v);
    if |items| != |r.fields| {
      return false;
    }
    for i := 0 to |items|
      invariant RowCanon(r, items, i, keys).Some? && RowShown(r, buf[..], at, i, keys) ==
          RowCanon(r, items, i, keys).value
      invariant forall j :: 0 <= j < i ==> FieldBytes(r.fields[j], r.size, items[j], buf[..], at)
      invariant Same(old(buf[..]), buf[..], 0, at) && Same(old(buf[..]), buf[..], at + r.size, buf.Length)
    {
      FieldShape(r, i);
      ghost var was := buf[..];
      ok := EncodeField(r.fields[i], r.size, items[i], buf, at, keys);
      if !ok {
        NoRow(r, items, i + 1, |items|, keys);
        return;
      }
      RowBefore(r, was, buf[..], at, i, keys);
      FieldsBefore(r, items, was, buf[..], at, i);
    }
    ok := true;
  }

  lemma {:induction false} NoRow(r: Rep, items: seq<Value>, n: nat, m: nat, keys: bool)
    requires n <= m <= |items| && m <= |r.fields| && RowCanon(r, items, n, keys).None?
    ensures RowCanon(r, items, m, keys).None?
    decreases m
  {
    if n < m { NoRow(r, items, n, m - 1, keys); }
  }

  // ----- a value that fits comes back as it is

  /** The value is written out as the structure is: one item per field, numbers in their types' ranges,
      arrays of their fields' lengths, and the size in a size field. */
  ghost predicate ElemExact(k: Shape, v: Value)
    decreases k, 0
  {
    match k
    case Basic(p) => v.Num? && InRange(p, v.n)
    case Nested(r) => Exact(r, v)
  }

  ghost predicate FieldExact(f: Field, structSize: Word, v: Value)
    decreases f
  {
    if f.count > 0 then
      v.List? && |v.items| == f.count && forall j :: 0 <= j < f.count ==> ElemExact(f.kind, v.items[j])
    else if f.kind == Basic(CbSize) then v == Num(structSize)
    else ElemExact(f.kind, v)
  }

  ghost predicate Exact(r: Rep, v: Value)
    decreases r
  {
    v.List? && |v.items| == |r.fields| &&
    forall i :: 0 <= i < |r.fields| ==> FieldExact(r.fields[i], r.size, v.items[i])
  }

  lemma {:induction false} ElemExactSame(k: Shape, v: Value)
    requires ElemExact(k, v)
    ensures ElemCanon(k, v, false) == Some(v)
    decreases k, 0
  {
    hide Stored, Shows, Canon, InRange, Exact;
    match k
    case Basic(p) =>
      InRangeStored(p, v.n);
      ShowsStored(p, v.n);
    case Nested(r) => ExactSame(r, v);
  }

  lemma {:induction false} ArrayExactSame(k: Shape, items: seq<Value>, n: nat)
    requires n <= |items| && forall j :: 0 <= j < |items| ==> ElemExact(k, items[j])
    ensures ArrayCanon(k, items, n, false) == Some(items[..n])
    decreases k, n + 1
  {
    hide ElemExact, ElemCanon;
    if n > 0 {
      ArrayExactSame(k, items, n - 1);
      ElemExactSame(k, items[n - 1]);
      assert items[..n] == items[..n - 1] + [items[n - 1]];
    }
  }

  lemma {:induction false} FieldExactSame(f: Field, structSize: Word, v: Value)
    requires FieldExact(f, structSize, v)
    ensures FieldCanon(f, structSize, v, false) == Some(v) && f.kind != Basic(Void)
    decreases f
  {
    hide ElemCanon, StoredSize;
    if f.count > 0 {
      ArrayExactSame(f.kind, v.items, f.count);
      assert v.items[..f.count] == v.items && ElemExact(f.kind, v.items[0]);
    } else if f.kind == Basic(CbSize) {
      OwnSize(structSize);
    } else {
      ElemExactSame(f.kind, v);
    }
  }

  lemma OwnSize(size: Word)
    ensures StoredSize(size, size) == Some(size)
  {
    hide Signed;
    SignedIs(size, WORD);
  }

  lemma {:induction false} RowExactSame(r: Rep, items: seq<Value>, n: nat)
    requires n <= |r.fields| == |items|
    requires forall i :: 0 <= i < |r.fields| ==> FieldExact(r.fields[i], r.size, items[i])
    ensures RowCanon(r, items, n, false) == Some(items[..n])
    decreases r, n
  {
    hide FieldExact, FieldCanon;
    if n > 0 {
      RowExactSame(r, items, n - 1);
      FieldExactSame(r.fields[n - 1], r.size, items[n - 1]);
      assert items[..n] == items[..n - 1] + [items[n - 1]];
    }
  }

  /** Such a value is its own canonical form: it comes back from memory unchanged. */
  lemma {:induction false} ExactSame(r: Rep, v: Value)
    requires Exact(r, v)
    ensures Canon(r, v, false) == Some(v)
    decreases r, |r.fields| + 1
  {
    hide RowCanon, FieldExact;
    RowExactSame(r, v.items, |r.fields|);
    assert v.items[..|r.fields|] == v.items;
  }

  // ----- the decoder

  const MAX_OBJECTS := 64

  function FieldLimit(keys: bool): nat {
    if keys then MAX_OBJECTS / 2 else MAX_OBJECTS
  }

  /** No structure has more fields than the decoder's fixed array takes. */
  predicate Decodable(r: Rep, keys: bool)
    decreases r
  {
    |r.fields| <= FieldLimit(keys) && forall i :: 0 <= i < |r.fields| ==> DecodableShape(r.fields[i].kind, keys)
  }

  predicate DecodableShape(k: Shape, keys: bool)
    decreases k
  {
    k.Nested? ==> Decodable(k.rep, keys)
  }

  method DecodeElem(k: Shape, size: Word, buf: array<Byte>, at: nat, keys: bool) returns (v: Option<Value>)
    requires ShapeOk(k) && SizeIs(k, size) && at + size <= buf.Length
    ensures v == if DecodableShape(k, keys) then Some(ElemShown(k, buf[..], at, keys)) else None
    decreases k, 0
  {
    hide LayoutOk, Shows, Shown, Decodable;
    match k {
      case Basic(p) =>
        var raw := Load(buf, at, Width(p));
        v := Some(Num(Shows(p, raw)));
      case Nested(r) =>
        v := Decode(r, size, buf, at, keys);
    }
  }

  /** Reads a number little-endian. */
  method Load(buf: array<Byte>, at: nat, w: nat) returns (raw: nat)
    requires at + w <= buf.Length
    ensures raw == Raw(buf[..], at, w) && raw < Range(w) && Digits(buf[..], at, w, raw)
    decreases w
  {
    RawDigits(buf[..], at, w);
    raw := 0;
    if w > 0 {
      var high := Load(buf, at + 1, w - 1);
      raw := buf[at] + 0x100 * high;
    }
  }

  method DecodeArray(k: Shape, size: Word, count: nat, buf: array<Byte>, at: nat, keys: bool)
      returns (items: Option<seq<Value>>)
    requires ShapeOk(k) && SizeIs(k, size) && at + Times(count, size) <= buf.Length && count > 0
    ensures items == if DecodableShape(k, keys) then Some(ArrayShown(k, buf[..], at, size, count, keys)) else None
    decreases k, 1
  {
    hide LayoutOk, Times, ElemShown, DecodableShape;
    TimesNone(size);
    var pos, list: seq<Value> := at, [];
    for j := 0 to count
      invariant pos == at + Times(j, size) && pos <= at + Times(count, size)
      invariant j > 0 ==> DecodableShape(k, keys)
      invariant list == ArrayShown(k, buf[..], at, size, j, keys)
    {
      TimesBelow(j, count, size);
      var v := DecodeElem(k, size, buf, pos, keys);
      if v.None? {
        return None;
      }
      list := list + [v.value];
      pos := pos + size;
    }
    items := Some(list);
  }

  method DecodeField(f: Field, buf: array<Byte>, at: nat, keys: bool) returns (v: Option<Value>)
    requires ShapeOk(f.kind) && SizeIs(f.kind, f.size) && at + f.offset + Extent(f.count, f.size) <= buf.Length
    ensures v == if DecodableShape(f.kind, keys) then Some(FieldShown(f, buf[..], at, keys)) else None
    decreases f
  {
    hide LayoutOk, Times, ElemShown, ArrayShown, DecodableShape, SizeIs;
    if f.count > 0 {
      var items := DecodeArray(f.kind, f.size, f.count, buf, at + f.offset, keys);
      v := if items.None? then None else Some(List(items.value));
    } else {
      v := DecodeElem(f.kind, f.size, buf, at + f.offset, keys);
    }
  }

  /** ObjFromCStructHelper: the value the structure in the buffer shows, unless its size is not the
      one announced (0 announces none) or some structure has too many fields. */
  method Decode(r: Rep, nbytes: Word, buf: array<Byte>, at: nat, keys: bool) returns (v: Option<Value>)
    requires LayoutOk(r) && at + r.size <= buf.Length
    ensures v == if (nbytes == 0 || nbytes == r.size) && Decodable(r, keys) then Some(Shown(r, buf[..], at, keys))
        else None
    decreases r
  {
    hide LayoutOk, FieldShown, EndOf, Extent, DecodableShape;
    if nbytes != 0 && nbytes != r.size {
      return None;
    }
    if |r.fields| > FieldLimit(keys) {
      return None;
    }
    var objs: seq<Value> := [];
    for i := 0 to |r.fields|
      invariant objs == RowShown(r, buf[..], at, i, keys)
      invariant forall j :: 0 <= j < i ==> DecodableShape(r.fields[j].kind, keys)
    {
      FieldShape(r, i);
      var x := DecodeField(r.fields[i], buf, at, keys);
      if x.None? {
        return None;
      }
      objs := objs + Column(r.fields[i], x.value, keys);
    }
    v := Some(List(objs));
  }

  /** With keys the result is name and value in turn, in the order of the fields; without, the values. */
  lemma {:induction false} RowIs(r: Rep, s: seq<Byte>, at: nat, n: nat, i: nat)
    requires i < n <= |r.fields| && forall j :: 0 <= j < n ==> r.fields[j].kind != Basic(Void)
    ensures var plain, keyed := RowShown(r, s, at, n, false), RowShown(r, s, at, n, true);
            && |plain| == n && |keyed| == 2 * n
            && plain[i] == FieldShown(r.fields[i], s, at, false)
            && keyed[2 * i] == Text(r.fields[i].name) && keyed[2 * i + 1] == FieldShown(r.fields[i], s, at, true)
    decreases n
  {
    hide FieldShown;
    if i < n - 1 {
      RowIs(r, s, at, n - 1, i);
    } else if n > 1 {
      RowIs(r, s, at, n - 1, 0);
    }
  }

  /** Element `j` of an array is what its own bytes show. */
  lemma {:induction false} ArrayIs(k: Shape, s: seq<Byte>, at: nat, size: Word, n: nat, keys: bool, j: nat)
    requires j < n
    ensures |ArrayShown(k, s, at, size, n, keys)| == n
    ensures ArrayShown(k, s, at, size, n, keys)[j] == ElemShown(k, s, at + Times(j, size), keys)
    decreases n
  {
    hide ElemShown, Times;
    if j < n - 1 {
      ArrayIs(k, s, at, size, n - 1, keys, j);
    } else if n > 1 {
      ArrayIs(k, s, at, size, n - 1, keys, 0);
    }
  }

  // ----- round trips

  /** A definition, a value for it, and back: the value comes back in canonical form. */
  method RoundTrip(def: Def, v: Value, keys: bool) returns (encoded: bool, w: Option<Value>)
    requires IdealSize(def) < WORD
    ensures encoded <==> Cast(def, false).Some? && Canon(Cast(def, false).value, v, keys).Some?
    ensures encoded ==>
        w == if Decodable(Cast(def, false).value, keys) then Canon(Cast(def, false).value, v, keys) else None
    ensures Cast(def, false).Some? && Exact(Cast(def, false).value, v) && !keys ==>
        encoded && (Decodable(Cast(def, false).value, false) ==> w == Some(v))
  {
    hide LayoutOk, Cast, Canon, Shown, Decodable, Exact, StructBytes;
    if Cast(def, false).Some? && Exact(Cast(def, false).value, v) {
      ExactSame(Cast(def, false).value, v);
    }
    encoded, w := false, None;
    var r := CastToCStruct(def, false);
    if r.Some? {
      CastRight(def, false);
      var buf := new Byte[r.value.size];
      encoded := Encode(r.value, v, r.value.size, buf, 0, keys);
      if encoded {
        w := Decode(r.value, r.value.size, buf, 0, keys);
      }
    }
  }

  /** A definition too large for 32 bits has values that no memory shows: here, any whose array starts
      with 0 and whose second field is 1. */
  lemma NoSuchMemory(def: Def, s: seq<Byte>, at: nat)
    requires def == Def([FieldDef("a", Plain(Int64), 0x2000_0000), FieldDef("b", Plain(Int), 0)])
    ensures Cast(def, false).Some? && |Cast(def, false).value.fields| == 2
    ensures var f := Cast(def, false).value.fields;
            !(ElemShown(Basic(Int64), s, at + f[0].offset, false) == Num(0) && FieldShown(f[1], s, at, false) == Num(1))
  {
    hide Cast, Raw;
    TooLarge(def);
    if Shows(Int64, Raw(s, at, 8)) == 0 {
      RawBelow(s, at, 8);
      RangeEight();
      RawLow(s, at);
    }
  }

  lemma {:induction false} RawBelow(s: seq<Byte>, at: nat, w: nat)
    ensures Raw(s, at, w) < Range(w)
    decreases w
  {
    if w > 0 { RawBelow(s, at + 1, w - 1); }
  }

  lemma RangeEight()
    ensures Range(8) == DOUBLE_WORD
  {
    assert Range(6) == 0x1_0000_0000_0000;
  }

  lemma RawLow(s: seq<Byte>, at: nat)
    ensures Raw(s, at, 8) == 0 ==> Raw(s, at, 4) == 0
  {
    assert Raw(s, at, 8) == (if at < |s| then s[at] else 0) + 0x100 * Raw(s, at + 1, 7);
    assert Raw(s, at + 1, 7) == (if at + 1 < |s| then s[at + 1] else 0) + 0x100 * Raw(s, at + 2, 6);
    assert Raw(s, at + 2, 6) == (if at + 2 < |s| then s[at + 2] else 0) + 0x100 * Raw(s, at + 3, 5);
    assert Raw(s, at + 3, 5) == (if at + 3 < |s| then s[at + 3] else 0) + 0x100 * Raw(s, at + 4, 4);
    assert Raw(s, at, 4) == (if at < |s| then s[at] else 0) + 0x100 * Raw(s, at + 1, 3);
    assert Raw(s, at + 1, 3) == (if at + 1 < |s| then s[at + 1] else 0) + 0x100 * Raw(s, at + 2, 2);
    assert Raw(s, at + 2, 2) == (if at + 2 < |s| then s[at + 2] else 0) + 0x100 * Raw(s, at + 3, 1);
  }

  lemma {:induction false} ElemSame(k: Shape, v: Value)
    requires ElemCanon(k, v, false).Some?
    ensures ElemCanon(k, ElemCanon(k, v, false).value, false) == ElemCanon(k, v, false)
    decreases k, 0
  {
    hide Stored, Shows, Canon;
    match k
    case Basic(p) => ShowsStored(p, Number(v).value);
    case Nested(r) => CanonSame(r, v);
  }

  lemma {:induction false} ArraySame(k: Shape, items: seq<Value>, n: nat, all: seq<Value>)
    requires n <= |items| && ArrayCanon(k, items, n, false).Some? && ArrayCanon(k, items, n, false).value <= all
    ensures |ArrayCanon(k, items, n, false).value| == n
    ensures ArrayCanon(k, all, n, false) == ArrayCanon(k, items, n, false)
    decreases k, n + 1
  {
    hide ElemCanon;
    if n > 0 {
      var a := ArrayCanon(k, items, n, false).value;
      ArraySame(k, items, n - 1, all);
      ElemSame(k, items[n - 1]);
      assert all[n - 1] == a[n - 1];
    }
  }

  lemma {:induction false} FieldSame(f: Field, size: Word, v: Value)
    requires FieldCanon(f, size, v, false).Some?
    ensures FieldCanon(f, size, FieldCanon(f, size, v, false).value, false) == FieldCanon(f, size, v, false)
    ensures f.kind != Basic(Void)
    decreases f
  {
    hide StoredSize, ArrayCanon;
    if f.count > 0 {
      var a := ArrayCanon(f.kind, Elements(v), f.count, false).value;
      ArraySame(f.kind, Elements(v), f.count, a);
      if f.kind == Basic(Void) { NoVoids(Elements(v), f.count); }
    } else if f.kind == Basic(CbSize) {
      SizeStored(Number(v).value, size);
    } else {
      ElemSame(f.kind, v);
    }
  }

  lemma NoVoids(items: seq<Value>, n: nat)
    requires 0 < n <= |items|
    ensures ArrayCanon(Basic(Void), items, n, false).None?
  {
  }

  lemma {:induction false} RowSame(r: Rep, items: seq<Value>, n: nat, all: seq<Value>)
    requires n <= |r.fields| && n <= |items| && RowCanon(r, items, n, false).Some?
        && RowCanon(r, items, n, false).value <= all
    ensures |RowCanon(r, items, n, false).value| == n
    ensures RowCanon(r, all, n, false) == RowCanon(r, items, n, false)
    decreases r, n
  {
    hide FieldCanon;
    if n > 0 {
      var a := RowCanon(r, items, n, false).value;
      FieldSame(r.fields[n - 1], r.size, items[n - 1]);
      RowSame(r, items, n - 1, all);
      assert all[n - 1] == a[n - 1];
    }
  }

  /** Canonical values are fixed: what decoding gives encodes to a structure that shows it again. */
  lemma {:induction false} CanonSame(r: Rep, v: Value)
    requires Canon(r, v, false).Some?
    ensures Canon(r, Canon(r, v, false).value, false) == Canon(r, v, false)
    decreases r, |r.fields| + 1
  {
    hide RowCanon;
    var c := Canon(r, v, false).value;
    RowSame(r, Elements(v), |r.fields|, c.items);
  }
}

/** What values mean as members of a C structure: how scripts' numbers are stored in memory, how
    memory is shown as values, and the canonical form of a value. */
module CStructValues {
  import opened Basics
  import opened CStructLayout

  /** A script value. A number is also the list whose one element it is, and the other way round. */
  datatype Value = Num(n: int) | Text(s: string) | List(items: seq<Value>)

  function Elements(v: Value): seq<Value> {
    if v.List? then v.items else [v]
  }

  function Number(v: Value): Option<int> {
    match v
    case Num(n) => Some(n)
    case Text(_) => None
    case List(items) => if |items| == 1 then Number(items[0]) else None
  }

  // ----- numbers in memory

  const DOUBLE_WORD := 0x1_0000_0000_0000_0000

  function Signed(x: int, m: nat): int
    requires m > 0
  {
    if x % m < m / 2 then x % m else x % m - m
  }

  /** Tcl_GetLongFromObj on a 32-bit long: signed and unsigned numbers are taken. */
  function Int32(n: int): Option<int> {
    if -WORD < n < WORD then Some(Signed(n, WORD)) else None
  }

  function Ranged(n: int, low: int, high: int): Option<int> {
    var i := Int32(n);
    if i.None? || i.value < low || i.value > high then None else i
  }

  function Reduced(o: Option<int>, m: nat): Option<nat>
    requires m > 0
  {
    if o.None? then None else Some(o.value % m)
  }

  /** What is stored for a number, as an unsigned value of the type's width. */
  function Stored(p: Prim, n: int): Option<nat> {
    match p
    case Void => None
    case Boolean => Some(if n != 0 then 1 else 0)
    case Char => Reduced(Ranged(n, -0x80, 0x7F), 0x100)
    case UChar => Reduced(Ranged(n, 0, 0xFF), 0x100)
    case Short => Reduced(Ranged(n, -0x8000, 0x7FFF), 0x1_0000)
    case UShort => Reduced(Ranged(n, 0, 0xFFFF), 0x1_0000)
    case Int | UInt | CbSize => Reduced(Int32(n), WORD)
    case Int64 | UInt64 => if -DOUBLE_WORD < n < DOUBLE_WORD then Some(n % DOUBLE_WORD) else None
  }

  /** A size field is checked against the structure's size, and 0 stands for that size. */
  function StoredSize(n: int, size: Word): Option<nat> {
    var raw := Stored(CbSize, n);
    if raw.None? || raw.value > size then None else if raw.value == 0 then Some(size) else raw
  }

  function Shows(p: Prim, raw: nat): int {
    match p
    case Void => 0
    case Boolean => if raw != 0 then 1 else 0
    case Char => Signed(raw, 0x100)
    case Short => Signed(raw, 0x1_0000)
    case Int => Signed(raw, WORD)
    case Int64 | UInt64 => Signed(raw, DOUBLE_WORD)
    case UChar | UShort | UInt | CbSize => raw
  }

  function Range(w: nat): (r: nat)
    ensures r > 0
  {
    if w == 0 then 1 else 0x100 * Range(w - 1)
  }

  /** The little-endian number in the `w` bytes from `at`. */
  function Raw(s: seq<Byte>, at: nat, w: nat): nat
    decreases w
  {
    if w == 0 then 0 else (if at < |s| then s[at] else 0) + 0x100 * Raw(s, at + 1, w - 1)
  }

  /** The bytes from `at` on are the base-256 digits of a number, the lowest first. */
  ghost predicate Digits(s: seq<Byte>, at: nat, w: nat, raw: nat) {
    at + w <= |s| && forall k: nat :: k < w ==> s[at + k] == raw / Range(k) % 0x100
  }

  lemma QuotientTwice(x: nat, m: nat)
    requires m > 0
    ensures x / (0x100 * m) == x / 0x100 / m
  {
    var q, y := x / (0x100 * m), x / 0x100;
    assert x == 0x100 * m * q + x % (0x100 * m);
    assert 0x100 * m * q == 0x100 * (m * q);
    assert y == m * (y / m) + y % m;
    var d := q - y / m;
    assert m * q == m * (y / m) + m * d;
    if d >= 1 { MulMono(1, d, m); }
    if d <= -1 { MulMono(d, -1, m); }
  }

  /** What is read is the number whose digits the bytes are: it has them, and no other number below
      256 to the power of the width has. */
  lemma {:induction false} RawDigits(s: seq<Byte>, at: nat, w: nat)
    requires at + w <= |s|
    ensures Digits(s, at, w, Raw(s, at, w)) && Raw(s, at, w) < Range(w)
    decreases w
  {
    if w > 0 {
      var raw, high := Raw(s, at, w), Raw(s, at + 1, w - 1);
      RawDigits(s, at + 1, w - 1);
      assert raw / 0x100 == high;
      forall k: nat | k < w ensures s[at + k] == raw / Range(k) % 0x100 {
        if k == 0 {
          assert Range(0) == 1;
        } else {
          QuotientTwice(raw, Range(k - 1));
          assert s[at + k] == s[at + 1 + (k - 1)];
        }
      }
    }
  }

  lemma {:induction false} DigitsRaw(s: seq<Byte>, at: nat, w: nat, raw: nat)
    requires Digits(s, at, w, raw) && raw < Range(w)
    ensures Raw(s, at, w) == raw
    decreases w
  {
    if w > 0 {
      forall k: nat | k < w - 1 ensures s[at + 1 + k] == raw / 0x100 / Range(k) % 0x100 {
          QuotientTwice(raw, Range(k));
        assert s[at + (k + 1)] == raw / Range(k + 1) % 0x100;
      }
      DigitsRaw(s, at + 1, w - 1, raw / 0x100);
      assert s[at + 0] == raw / Range(0) % 0x100;
      assert Range(0) == 1;
    }
  }

  lemma {:induction false} RawLocal(s: seq<Byte>, s': seq<Byte>, at: nat, w: nat)
    requires |s| == |s'| && forall i :: at <= i < at + w && i < |s| ==> s[i] == s'[i]
    ensures Raw(s, at, w) == Raw(s', at, w)
    decreases w
  {
    if w > 0 { RawLocal(s, s', at + 1, w - 1); }
  }

  lemma StoredFits(p: Prim, n: int)
    ensures Stored(p, n).Some? ==> Stored(p, n).value < Range(Width(p))
  {
    assert Range(1) == 0x100 && Range(2) == 0x1_0000 && Range(4) == WORD;
    assert Range(8) == DOUBLE_WORD by { assert Range(6) == 0x1_0000_0000_0000; }
  }

  // ----- showing a structure

  function ElemShown(k: Shape, s: seq<Byte>, at: nat, keys: bool): Value
    decreases k, 0
  {
    match k
    case Basic(p) => Num(Shows(p, Raw(s, at, Width(p))))
    case Nested(r) => Shown(r, s, at, keys)
  }

  function ArrayShown(k: Shape, s: seq<Byte>, at: nat, size: Word, n: nat, keys: bool): seq<Value>
    decreases k, n + 1
  {
    if n == 0 then [] else ArrayShown(k, s, at, size, n - 1, keys) + [ElemShown(k, s, at + Times(n - 1, size), keys)]
  }

  function FieldShown(f: Field, s: seq<Byte>, at: nat, keys: bool): Value
    decreases f
  {
    if f.count == 0 then ElemShown(f.kind, s, at + f.offset, keys)
    else List(ArrayShown(f.kind, s, at + f.offset, f.size, f.count, keys))
  }

  /** One field's part of the result: with `keys` the name comes first; a void field gives nothing. */
  function Column(f: Field, v: Value, keys: bool): seq<Value> {
    if f.kind == Basic(Void) then [] else if keys then [Text(f.name), v] else [v]
  }

  function RowShown(r: Rep, s: seq<Byte>, at: nat, n: nat, keys: bool): seq<Value>
    requires n <= |r.fields|
    decreases r, n
  {
    if n == 0 then []
    else
      RowShown(r, s, at, n - 1, keys) + Column(r.fields[n - 1], FieldShown(r.fields[n - 1], s, at, keys), keys)
  }

  /** The value of the structure at `at`. */
  function Shown(r: Rep, s: seq<Byte>, at: nat, keys: bool): Value
    decreases r, |r.fields| + 1
  {
    List(RowShown(r, s, at, |r.fields|, keys))
  }

  // ----- the canonical form of a value

  function ElemCanon(k: Shape, v: Value, keys: bool): Option<Value>
    decreases k, 0
  {
    match k
    case Basic(p) =>
      var n := Number(v);
      var raw := if n.None? then None else Stored(p, n.value);
      if raw.None? then None else Some(Num(Shows(p, raw.value)))
    case Nested(r) => Canon(r, v, keys)
  }

  function ArrayCanon(k: Shape, items: seq<Value>, n: nat, keys: bool): Option<seq<Value>>
    requires n <= |items|
    decreases k, n + 1
  {
    if n == 0 then Some([])
    else
      var a, x := ArrayCanon(k, items, n - 1, keys), ElemCanon(k, items[n - 1], keys);
      if a.None? || x.None? then None else Some(a.value + [x.value])
  }

  /** An array field takes a list of at least its length; the size field is the structure's. */
  function FieldCanon(f: Field, size: Word, v: Value, keys: bool): Option<Value>
    decreases f
  {
    if f.count > 0 then
      if |Elements(v)| < f.count then None
      else
        var a := ArrayCanon(f.kind, Elements(v), f.count, keys);
        if a.None? then None else Some(List(a.value))
    else if f.kind == Basic(CbSize) then
      var n := Number(v);
      var raw := if n.None? then None else StoredSize(n.value, size);
      if raw.None? then None else Some(Num(raw.value))
    else
      ElemCanon(f.kind, v, keys)
  }

  function RowCanon(r: Rep, items: seq<Value>, n: nat, keys: bool): Option<seq<Value>>
    requires n <= |r.fields| && n <= |items|
    decreases r, n
  {
    if n == 0 then Some([])
    else
      var a, x := RowCanon(r, items, n - 1, keys), FieldCanon(r.fields[n - 1], r.size, items[n - 1], keys);
      if a.None? || x.None? then None else Some(a.value + Column(r.fields[n - 1], x.value, keys))
  }

  /** Numbers reduced to what their fields hold, arrays cut to their length, sizes filled in; none if
      the value does not match the structure. */
  function Canon(r: Rep, v: Value, keys: bool): Option<Value>
    decreases r, |r.fields| + 1
  {
    if |Elements(v)| != |r.fields| then None
    else
      var a := RowCanon(r, Elements(v), |r.fields|, keys);
      if a.None? then None else Some(List(a.value))
  }

  // ----- a number in a field's own range is stored as it is, and what is shown stores the same

  predicate InRange(p: Prim, n: int) {
    match p
    case Void => false
    case Boolean => n == 0 || n == 1
    case Char => -0x80 <= n < 0x80
    case UChar => 0 <= n < 0x100
    case Short => -0x8000 <= n < 0x8000
    case UShort => 0 <= n < 0x1_0000
    case Int => -0x8000_0000 <= n < 0x8000_0000
    case UInt | CbSize => 0 <= n < WORD
    case Int64 | UInt64 => -(DOUBLE_WORD / 2) <= n < DOUBLE_WORD / 2
  }

  /** Two's complement: the signed reading is the one number of its range with that remainder. */
  predicate SignedOk(x: int, m: nat)
    requires m > 0
  {
    && -(m / 2) <= Signed(x, m) < m / 2 && Signed(x, m) % m == x % m
    && (-(m / 2) <= x < m / 2 ==> Signed(x, m) == x)
    && Signed(x % m, m) == Signed(x, m)
  }

  lemma Signed8(x: int)
    ensures SignedOk(x, 0x100)
  {
    assert (x % 0x100 - 0x100) % 0x100 == x % 0x100;
  }

  lemma Signed16(x: int)
    ensures SignedOk(x, 0x1_0000)
  {
    assert (x % 0x1_0000 - 0x1_0000) % 0x1_0000 == x % 0x1_0000;
  }

  lemma Signed32(x: int)
    ensures SignedOk(x, WORD)
  {
    assert (x % WORD - WORD) % WORD == x % WORD;
  }

  lemma Signed64(x: int)
    ensures SignedOk(x, DOUBLE_WORD)
  {
    assert (x % DOUBLE_WORD - DOUBLE_WORD) % DOUBLE_WORD == x % DOUBLE_WORD;
  }

  lemma SignedIs(x: int, m: nat)
    requires m == 0x100 || m == 0x1_0000 || m == WORD || m == DOUBLE_WORD
    ensures SignedOk(x, m)
  {
    hide SignedOk;
    Signed8(x);
    Signed16(x);
    Signed32(x);
    Signed64(x);
  }

  lemma StoredByte(p: Prim, n: int)
    requires p.Char? || p.UChar? || p.Boolean?
    requires Stored(p, n).Some?
    ensures var v := Shows(p, Stored(p, n).value);
            InRange(p, v) && (v == n <==> InRange(p, n)) && Stored(p, v) == Stored(p, n)
  {
    hide Signed;
    SignedIs(n, WORD);
    if Int32(n).Some? {
      var i := Int32(n).value;
      SignedIs(i, WORD);
      SignedIs(i, 0x100);
    }
  }

  lemma StoredShort(p: Prim, n: int)
    requires p.Short? || p.UShort?
    requires Stored(p, n).Some?
    ensures var v := Shows(p, Stored(p, n).value);
            InRange(p, v) && (v == n <==> InRange(p, n)) && Stored(p, v) == Stored(p, n)
  {
    hide Signed;
    SignedIs(n, WORD);
    if Int32(n).Some? {
      var i := Int32(n).value;
      SignedIs(i, WORD);
      SignedIs(i, 0x1_0000);
    }
  }

  lemma StoredLarge(p: Prim, n: int)
    requires p.Int? || p.UInt? || p.CbSize? || p.Int64? || p.UInt64?
    requires Stored(p, n).Some?
    ensures var v := Shows(p, Stored(p, n).value);
            InRange(p, v) && (v == n <==> InRange(p, n)) && Stored(p, v) == Stored(p, n)
  {
    hide Signed;
    var m := if Width(p) == 8 then DOUBLE_WORD else WORD;
    SignedIs(n, m);
    SignedIs(Stored(p, n).value, m);
    SignedIs(Shows(p, Stored(p, n).value), m);
    SignedIs(Signed(n, m), m);
  }

  /** Storing and showing a number is the identity exactly on the numbers the type can show; any
      other number that is accepted is reduced to one of those. */
  lemma ShowsStored(p: Prim, n: int)
    requires Stored(p, n).Some?
    ensures InRange(p, Shows(p, Stored(p, n).value))
    ensures Shows(p, Stored(p, n).value) == n <==> InRange(p, n)
    ensures Stored(p, Shows(p, Stored(p, n).value)) == Stored(p, n)
  {
    hide Shows, InRange;
    if Width(p) == 1 || p.Boolean? {
      StoredByte(p, n);
    } else if Width(p) == 2 {
      StoredShort(p, n);
    } else {
      StoredLarge(p, n);
    }
  }

  /** A type is as wide as its numbers need; a truth value is as wide as an int. */
  lemma WidthIs(p: Prim)
    ensures p.Char? || p.UChar? ==> Range(Width(p)) == 0x100
    ensures p.Short? || p.UShort? ==> Range(Width(p)) == 0x1_0000
    ensures p.Int? || p.UInt? || p.CbSize? || p.Boolean? ==> Range(Width(p)) == WORD
    ensures p.Int64? || p.UInt64? ==> Range(Width(p)) == DOUBLE_WORD
  {
    assert Range(1) == 0x100 && Range(2) == 0x1_0000 && Range(4) == WORD;
    assert Range(6) == 0x1_0000_0000_0000 && Range(8) == DOUBLE_WORD;
  }

  /** A value and the list of only that value are the same to a script, used as a list or as a number;
      a longer or an empty list is no number. */
  lemma OneElementList(v: Value, items: seq<Value>)
    ensures !v.List? ==> Elements(v) == [v]
    ensures Elements(List(items)) == items
    ensures Number(List([v])) == Number(v) && (|items| != 1 ==> Number(List(items)).None?)
    ensures v.Num? ==> Number(v) == Some(v.n)
  {
  }

  /** The number a 32-bit long holds for `n`. */
  predicate Wraps32(n: int, m: int) {
    -0x8000_0000 <= m < 0x8000_0000 && (m == n || m == n - WORD || m == n + WORD)
  }

  lemma WrapsOnce(n: int, m: int)
    requires -WORD < n < WORD && Wraps32(n, m)
    ensures Int32(n) == Some(m)
  {
  }

  lemma ReducedIs(m: int, w: nat)
    requires m < w && 0 <= m + w
    ensures m % w == if m < 0 then m + w else m
  {
  }

  lemma SmallMeans(p: Prim, n: int, m: int)
    requires p.Char? || p.UChar? || p.Short? || p.UShort?
    requires -WORD < n < WORD && Wraps32(n, m)
    ensures Stored(p, n).Some? <==> InRange(p, m)
    ensures InRange(p, m) ==> Stored(p, n) == Some(if m < 0 then m + Range(Width(p)) else m)
  {
    hide Int32;
    WrapsOnce(n, m);
    assert Range(1) == 0x100 && Range(2) == 0x1_0000;
    if InRange(p, m) { ReducedIs(m, Range(Width(p))); }
  }

  lemma LargeMeans(p: Prim, n: int)
    requires p.Int? || p.UInt? || p.CbSize? || p.Int64? || p.UInt64?
    ensures Stored(p, n).Some? <==> if Width(p) == 8 then -DOUBLE_WORD < n < DOUBLE_WORD else -WORD < n < WORD
    ensures var w := if Width(p) == 8 then DOUBLE_WORD else WORD;
            Stored(p, n).Some? ==> Stored(p, n).value == if n < 0 then n + w else n
  {
    if Width(p) == 8 {
      if -DOUBLE_WORD < n < DOUBLE_WORD { ReducedIs(n, DOUBLE_WORD); }
    } else if -WORD < n < WORD {
      SignedIs(n, WORD);
      ReducedIs(n, WORD);
    }
  }

  /** Which numbers are accepted, and what is stored: a number of the type's width, which differs from
      the one given by a multiple of 256 to that power. The types of up to 16 bits look at what a
      32-bit long holds for it, and a truth value is 0 or 1. */
  lemma StoredMeans(p: Prim, n: int, m: int)
    ensures p.Boolean? ==> Stored(p, n) == Some(if n == 0 then 0 else 1)
    ensures (p.Char? || p.UChar? || p.Short? || p.UShort?) && -WORD < n < WORD && Wraps32(n, m) ==>
              (Stored(p, n).Some? <==> InRange(p, m)) &&
              (InRange(p, m) ==> Stored(p, n) == Some(if m < 0 then m + Range(Width(p)) else m))
    ensures (p.Int? || p.UInt? || p.CbSize?) && -WORD < n < WORD ==>
              Stored(p, n) == Some(if n < 0 then n + WORD else n)
    ensures (p.Int64? || p.UInt64?) && -DOUBLE_WORD < n < DOUBLE_WORD ==>
              Stored(p, n) == Some(if n < 0 then n + DOUBLE_WORD else n)
    ensures Width(p) == 8 && !(-DOUBLE_WORD < n < DOUBLE_WORD) ==> Stored(p, n).None?
    ensures Width(p) < 8 && !p.Boolean? && !(-WORD < n < WORD) ==> Stored(p, n).None?
  {
    hide InRange, Range, Wraps32;
    if (p.Char? || p.UChar? || p.Short? || p.UShort?) && -WORD < n < WORD && Wraps32(n, m) {
      SmallMeans(p, n, m);
    } else if p.Int? || p.UInt? || p.CbSize? || p.Int64? || p.UInt64? {
      LargeMeans(p, n);
    }
  }

  /** A size field takes the structure's size or less, and 0 for that size. */
  lemma SizeMeans(n: int, size: Word)
    requires 0 <= n < WORD
    ensures StoredSize(n, size) == if n == 0 then Some(size) else if n <= size then Some(n) else None
  {
    StoredMeans(CbSize, n, 0);
  }

  /** Every number a type can show is accepted. */
  lemma InRangeStored(p: Prim, n: int)
    requires InRange(p, n)
    ensures Stored(p, n).Some?
  {
  }

  lemma SizeStored(n: int, size: Word)
    requires StoredSize(n, size).Some?
    ensures StoredSize(StoredSize(n, size).value, size) == StoredSize(n, size)
  {
    hide Signed;
    SignedIs(n, WORD);
    SignedIs(StoredSize(n, size).value, WORD);
  }
}

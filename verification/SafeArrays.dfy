/** Conversion of nested lists to and from N-dimensional SAFEARRAYs. */
module SafeArrays {
  import opened Basics
  import opened IndexTuples

  /** A Tcl value: a list, or anything else. */
  datatype Val = Leaf(text: string) | Node(kids: seq<Val>)

  /** How a text reads as a list; some do not. */
  type Splitter = string -> Option<seq<string>>

  const MAX_DIMS := 10

  /** The elements of a value that is used as a list. */
  function Items(sp: Splitter, v: Val): Option<seq<Val>> {
    match v
    case Node(kids) => Some(kids)
    case Leaf(text) =>
      var s := sp(text);
      if s.None? then None else Some(seq(|s.value|, i requires 0 <= i < |s.value| => Leaf(s.value[i])))
  }

  /** A list has its own elements, and a text the ones it reads as, in their order. */
  lemma ItemsAre(sp: Splitter, text: string, kids: seq<Val>, i: nat)
    ensures Items(sp, Node(kids)) == Some(kids)
    ensures Items(sp, Leaf(text)).Some? <==> sp(text).Some?
    ensures sp(text).Some? && i < |sp(text).value| ==>
        |Items(sp, Leaf(text)).value| == |sp(text).value|
        && Items(sp, Leaf(text)).value[i] == Leaf(sp(text).value[i])
  {
  }

  /** The element counts along the first elements of each nesting level. Only the outermost value is
      made a list if it is none. */
  function Shape(sp: Splitter, v: Val): seq<nat>
    requires Items(sp, v).Some?
  {
    match v
    case Node(kids) => [|kids|] + if kids != [] && kids[0].Node? then Shape(sp, kids[0]) else []
    case Leaf(_) => [|Items(sp, v).value|]
  }

  /** ObjListIndex: an index past the end gives no element. */
  function Index(items: seq<Val>, i: nat): Option<Val> {
    if i < |items| then Some(items[i]) else None
  }

  /** What is found by following the indices. */
  function At(sp: Splitter, v: Val, t: seq<nat>): Option<Val>
    decreases |t|
  {
    if t == [] then Some(v)
    else
      var items := Items(sp, v);
      if items.None? || t[0] >= |items.value| then None else At(sp, items.value[t[0]], t[1..])
  }

  lemma {:induction false} AtStep(sp: Splitter, v: Val, t: seq<nat>, i: nat)
    ensures var w := At(sp, v, t);
            At(sp, v, t + [i]) ==
              if w.None? || Items(sp, w.value).None? then None else Index(Items(sp, w.value).value, i)
    decreases |t|
  {
    if t == [] {
      assert [i][1..] == [];
    } else {
      assert (t + [i])[1..] == t[1..] + [i];
      var items := Items(sp, v);
      if items.Some? && t[0] < |items.value| { AtStep(sp, items.value[t[0]], t[1..], i); }
    }
  }

  lemma {:induction false} AtPrefix(sp: Splitter, v: Val, t: seq<nat>, d: nat)
    requires d <= |t| && At(sp, v, t[..d]).None?
    ensures At(sp, v, t).None?
    decreases |t|
  {
    if d > 0 {
      assert t[..d][1..] == t[1..][..d - 1];
      var items := Items(sp, v);
      if items.Some? && t[0] < |items.value| { AtPrefix(sp, items.value[t[0]], t[1..], d - 1); }
    }
  }

  /** A SAFEARRAY: a lower bound and a count per dimension, and a cell for every index tuple. */
  class SafeArray<E> {
    const lower: seq<int>
    const counts: seq<nat>
    var cells: seq<int> -> E

    constructor (lower: seq<int>, counts: seq<nat>, zero: E)
      requires |lower| == |counts|
      ensures this.lower == lower && this.counts == counts
    {
      this.lower, this.counts := lower, counts;
      cells := _ => zero;
    }

    /** When SafeArrayPtrOfIndex succeeds. */
    predicate Inside(t: seq<int>) {
      |t| == |counts| == |lower| && forall d :: 0 <= d < |t| ==> lower[d] <= t[d] < lower[d] + counts[d]
    }

    method Put(t: seq<int>, x: E)
      requires Inside(t)
      modifies this
      ensures cells(t) == x && forall u :: u != t ==> cells(u) == old(cells)(u)
    {
      var was := cells;
      cells := u => if u == t then x else was(u);
    }

    /** SafeArrayGetElement, on a cell of the array. */
    function Get(t: seq<int>): E
      requires Inside(t)
      reads this
    {
      cells(t)
    }
  }

  datatype Outcome = Converted | NotAList | TooDeep | TooFew | BadElement | BadIndex | NullList

  /** The nesting level is found by looking at the first elements only. */
  method FindShape(sp: Splitter, v: Val) returns (r: Outcome, bounds: seq<nat>)
    ensures r == if Items(sp, v).None? then NotAList else if |Shape(sp, v)| > MAX_DIMS then TooDeep else Converted
    ensures r.Converted? ==> Items(sp, v).Some? && bounds == Shape(sp, v)
  {
    hide Shape;
    var items := Items(sp, v);
    if items.None? {
      return NotAList, [];
    }
    RestStep(sp, v);
    bounds := [|items.value|];
    var next := Index(items.value, 0);
    while next.Some? && next.value.Node?
      invariant 1 <= |bounds| <= MAX_DIMS
      invariant Shape(sp, v) == bounds + Rest(sp, next)
      decreases |Rest(sp, next)|
    {
      RestStep(sp, next.value);
      if |bounds| >= MAX_DIMS {
        return TooDeep, [];
      }
      bounds := bounds + [|next.value.kids|];
      next := Index(next.value.kids, 0);
    }
    r := Converted;
  }

  /** The counts of the dimensions that begin at an element. */
  function Rest(sp: Splitter, o: Option<Val>): seq<nat> {
    if o.Some? && o.value.Node? then Shape(sp, o.value) else []
  }

  lemma RestStep(sp: Splitter, v: Val)
    requires Items(sp, v).Some?
    ensures Shape(sp, v) == [|Items(sp, v).value|] + Rest(sp, Index(Items(sp, v).value, 0))
  {
  }

  // ----- from a nested list

  /** An element that is there and can be converted. */
  predicate Good<E>(sp: Splitter, conv: Val -> Option<E>, v: Val, t: seq<nat>) {
    At(sp, v, t).Some? && conv(At(sp, v, t).value).Some?
  }

  /** What goes wrong when the indices are followed; an element missing above the last level is found
      out only when it is used as a list. */
  function Trouble<E>(sp: Splitter, conv: Val -> Option<E>, v: Val, t: seq<nat>): Outcome
    requires t != []
    decreases |t|
  {
    var items := Items(sp, v);
    if items.None? then NotAList
    else if t[0] >= |items.value| then if |t| == 1 then TooFew else NullList
    else if |t| > 1 then Trouble(sp, conv, items.value[t[0]], t[1..])
    else if conv(items.value[t[0]]).None? then BadElement
    else Converted
  }

  lemma {:induction false} GoodIs<E>(sp: Splitter, conv: Val -> Option<E>, v: Val, t: seq<nat>)
    requires t != []
    ensures Trouble(sp, conv, v, t).Converted? <==> Good(sp, conv, v, t)
    decreases |t|
  {
    var items := Items(sp, v);
    if items.Some? && t[0] < |items.value| {
      assert At(sp, v, t) == At(sp, items.value[t[0]], t[1..]);
      if |t| > 1 {
        GoodIs(sp, conv, items.value[t[0]], t[1..]);
      } else {
        assert t[1..] == [] && At(sp, items.value[t[0]], []) == Some(items.value[t[0]]);
      }
    }
  }

  lemma {:induction false} TroubleFrom<E>(sp: Splitter, conv: Val -> Option<E>, v: Val, t: seq<nat>, k: nat)
    requires k < |t| && At(sp, v, t[..k]).Some?
    ensures Trouble(sp, conv, v, t) == Trouble(sp, conv, At(sp, v, t[..k]).value, t[k..])
    decreases |t|
  {
    if k > 0 {
      assert t[..k][1..] == t[1..][..k - 1] && t[1..][k - 1..] == t[k..];
      TroubleFrom(sp, conv, Items(sp, v).value[t[0]], t[1..], k - 1);
    } else {
      assert t[0..] == t;
    }
  }

  /** A missing element is used as a list exactly when a list above the last level is too short for
      its index. */
  lemma {:induction false} NullListIs<E>(sp: Splitter, conv: Val -> Option<E>, v: Val, t: seq<nat>)
    requires t != []
    ensures Trouble(sp, conv, v, t).NullList? <==> exists k :: 0 < k < |t| && ShortAt(sp, v, t, k)
    decreases |t|
  {
    var items := Items(sp, v);
    ShortFirst(sp, v, t);
    if Trouble(sp, conv, v, t).NullList? {
      if t[0] >= |items.value| {
        assert ShortAt(sp, v, t, 1);
      } else {
        NullListIs(sp, conv, items.value[t[0]], t[1..]);
        var k :| 0 < k < |t[1..]| && ShortAt(sp, items.value[t[0]], t[1..], k);
        ShortDeeper(sp, v, t, k);
      }
    } else if k :| 0 < k < |t| && ShortAt(sp, v, t, k) {
      if k > 1 {
        assert At(sp, v, t[..k - 1]).Some? && t[..k - 1][0] == t[0];
        ShortDeeper(sp, v, t, k - 1);
        NullListIs(sp, conv, items.value[t[0]], t[1..]);
      }
    }
  }

  /** What each outcome means for a tuple: a value on the way that is no list, a last list that is too
      short, an element that does not convert, or none of these and nothing missing on the way. */
  lemma {:induction false} TroubleMeans<E>(sp: Splitter, conv: Val -> Option<E>, v: Val, t: seq<nat>)
    requires t != []
    ensures Trouble(sp, conv, v, t).NotAList? <==> exists k :: 0 <= k < |t| && NoListAt(sp, v, t, k)
    ensures Trouble(sp, conv, v, t).TooFew? <==> ShortAt(sp, v, t, |t|)
    ensures Trouble(sp, conv, v, t).BadElement? <==> At(sp, v, t).Some? && conv(At(sp, v, t).value).None?
    ensures Trouble(sp, conv, v, t).Converted? <==> At(sp, v, t).Some? && conv(At(sp, v, t).value).Some?
    decreases |t|
  {
    var items := Items(sp, v);
    ShortFirst(sp, v, t);
    assert t[..|t|] == t && NoListAt(sp, v, t, 0) == items.None? by { assert t[..0] == []; }
    if items.Some? && t[0] < |items.value| {
      var w := items.value[t[0]];
      assert At(sp, v, t) == At(sp, w, t[1..]);
      forall k | 0 < k < |t| ensures NoListAt(sp, v, t, k) == NoListAt(sp, w, t[1..], k - 1) {
        assert t[..k][1..] == t[1..][..k - 1];
      }
      if |t| > 1 {
        TroubleMeans(sp, conv, w, t[1..]);
        ShortDeeper(sp, v, t, |t| - 1);
        assert (exists k :: 0 <= k < |t[1..]| && NoListAt(sp, w, t[1..], k)) ==>
            exists k :: 0 <= k < |t| && NoListAt(sp, v, t, k) by {
          if k :| 0 <= k < |t[1..]| && NoListAt(sp, w, t[1..], k) { assert NoListAt(sp, v, t, k + 1); }
        }
      } else {
        assert t[1..] == [] && At(sp, w, []) == Some(w);
      }
    } else {
      forall k | 0 < k < |t| ensures At(sp, v, t[..k]).None? {
        assert t[..k][0] == t[0];
      }
    }
  }

  /** What is reached after `k` indices is there and is no list. */
  predicate NoListAt(sp: Splitter, v: Val, t: seq<nat>, k: nat)
    requires k <= |t|
  {
    At(sp, v, t[..k]).Some? && Items(sp, At(sp, v, t[..k]).value).None?
  }

  /** The list reached after `k - 1` indices has no element for the next one. */
  predicate ShortAt(sp: Splitter, v: Val, t: seq<nat>, k: nat)
    requires 0 < k <= |t|
  {
    var w := At(sp, v, t[..k - 1]);
    w.Some? && Items(sp, w.value).Some? && At(sp, v, t[..k]).None?
  }

  lemma ShortFirst(sp: Splitter, v: Val, t: seq<nat>)
    requires t != []
    ensures ShortAt(sp, v, t, 1) <==> Items(sp, v).Some? && t[0] >= |Items(sp, v).value|
  {
    assert t[..0] == [] && t[..1] == [] + [t[0]];
    AtStep(sp, v, [], t[0]);
  }

  lemma ShortDeeper(sp: Splitter, v: Val, t: seq<nat>, k: nat)
    requires 0 < k < |t| && Items(sp, v).Some? && t[0] < |Items(sp, v).value|
    ensures ShortAt(sp, Items(sp, v).value[t[0]], t[1..], k) <==> ShortAt(sp, v, t, k + 1)
  {
    assert t[..k + 1][1..] == t[1..][..k] && t[..k][1..] == t[1..][..k - 1];
  }

  /** No list above the last level is shorter than its dimension. */
  predicate Deep(sp: Splitter, v: Val, b: seq<nat>)
    decreases |b|
  {
    |b| <= 1 || Items(sp, v).None? ||
    (b[0] <= |Items(sp, v).value| && forall i :: 0 <= i < b[0] ==> Deep(sp, Items(sp, v).value[i], b[1..]))
  }

  /** That is what a caller has to check so that no tuple runs into a missing list. */
  lemma {:induction false} NeverNull<E>(sp: Splitter, conv: Val -> Option<E>, v: Val, b: seq<nat>)
    requires b != [] && InBounds(b, Zeros(|b|))
    ensures Deep(sp, v, b) <==> forall t :: InBounds(b, t) ==> !Trouble(sp, conv, v, t).NullList?
    decreases |b|
  {
    if Deep(sp, v, b) {
      forall t | InBounds(b, t) ensures !Trouble(sp, conv, v, t).NullList? {
        DeepTuple(sp, conv, v, b, t);
      }
    } else {
      var t := ShortTuple(sp, conv, v, b);
    }
  }

  lemma {:induction false} DeepTuple<E>(sp: Splitter, conv: Val -> Option<E>, v: Val, b: seq<nat>, t: seq<nat>)
    requires b != [] && Deep(sp, v, b) && InBounds(b, t)
    ensures !Trouble(sp, conv, v, t).NullList?
    decreases |b|
  {
    if |b| > 1 && Items(sp, v).Some? {
      DeepTuple(sp, conv, Items(sp, v).value[t[0]], b[1..], t[1..]);
    }
  }

  lemma {:induction false} ShortTuple<E>(sp: Splitter, conv: Val -> Option<E>, v: Val, b: seq<nat>)
      returns (t: seq<nat>)
    requires b != [] && InBounds(b, Zeros(|b|)) && !Deep(sp, v, b)
    ensures InBounds(b, t) && Trouble(sp, conv, v, t).NullList?
    decreases |b|
  {
    var items := Items(sp, v).value;
    if |items| < b[0] {
      t := [|items|] + Zeros(|b| - 1);
      assert forall d :: 0 < d < |b| ==> Zeros(|b|)[d] == t[d];
    } else {
      var i: nat :| i < b[0] && !Deep(sp, items[i], b[1..]);
      ZerosTail(b);
      var u := ShortTuple(sp, conv, items[i], b[1..]);
      t := [i] + u;
      assert t[1..] == u && forall d :: 0 < d < |b| ==> t[d] == u[d - 1] < b[1..][d - 1] == b[d];
    }
  }

  lemma ZerosTail(b: seq<nat>)
    requires b != [] && InBounds(b, Zeros(|b|))
    ensures InBounds(b[1..], Zeros(|b| - 1))
  {
    forall d | 0 <= d < |b| - 1 ensures Zeros(|b| - 1)[d] < b[1..][d] {
      assert Zeros(|b|)[d + 1] < b[d + 1];
    }
  }

  /** The first tuple, in row-major order, that does not lead to a convertible element. */
  ghost predicate FirstBad<E>(sp: Splitter, conv: Val -> Option<E>, v: Val, b: seq<nat>, t: seq<nat>) {
    && InBounds(b, t) && !Good(sp, conv, v, t)
    && forall u :: InBounds(b, u) && Rank(b, u) < Rank(b, t) ==> Good(sp, conv, v, u)
  }

  lemma FirstBadUnique<E>(sp: Splitter, conv: Val -> Option<E>, v: Val, b: seq<nat>, t: seq<nat>, u: seq<nat>)
    requires FirstBad(sp, conv, v, b, t) && FirstBad(sp, conv, v, b, u)
    ensures t == u
  {
    RankInjectiveIf(b, t, u);
  }

  lemma RankInjectiveIf(b: seq<nat>, t: seq<nat>, u: seq<nat>)
    requires InBounds(b, t) && InBounds(b, u)
    ensures Rank(b, t) == Rank(b, u) ==> t == u
  {
    if Rank(b, t) == Rank(b, u) { RankInjective(b, t, u); }
  }

  /** How the conversion of a list with the given dimensions ends: an empty dimension is found out
      first; otherwise the first tuple that is not good decides. */
  ghost predicate Ends<E>(sp: Splitter, conv: Val -> Option<E>, v: Val, b: seq<nat>, r: Outcome)
    requires b != []
  {
    if !InBounds(b, Zeros(|b|)) then r == BadIndex
    else if r.Converted? then forall t :: InBounds(b, t) ==> Good(sp, conv, v, t)
    else exists t :: FirstBad(sp, conv, v, b, t) && r == Trouble(sp, conv, v, t)
  }

  /** There is one such ending: success exactly when every tuple is good, a missing list exactly when
      the first bad tuple runs into one. */
  lemma EndsOnce<E>(sp: Splitter, conv: Val -> Option<E>, v: Val, b: seq<nat>, r: Outcome)
    requires b != [] && Ends(sp, conv, v, b, r)
    ensures r.Converted? <==> InBounds(b, Zeros(|b|)) && forall t :: InBounds(b, t) ==> Good(sp, conv, v, t)
    ensures r.NullList? <==>
              InBounds(b, Zeros(|b|)) &&
              exists t, k :: FirstBad(sp, conv, v, b, t) && 0 < k < |b| && ShortAt(sp, v, t, k)
    ensures r.NullList? ==> !Deep(sp, v, b)
  {
    if InBounds(b, Zeros(|b|)) {
      if !r.Converted? {
        var t :| FirstBad(sp, conv, v, b, t) && r == Trouble(sp, conv, v, t);
        NullListIs(sp, conv, v, t);
        NeverNull(sp, conv, v, b);
        forall u | FirstBad(sp, conv, v, b, u) ensures u == t {
          FirstBadUnique(sp, conv, v, b, t, u);
        }
      }
    }
  }

  /** A list that is ragged above its last level: its first element says 2 by 2 by 1, and the second
      row has one list only. All its elements are fine, and yet the loop uses a missing list. */
  lemma Ragged<E>(sp: Splitter, conv: Val -> Option<E>, x: Val, v: Val, r: Outcome)
    requires x.Leaf? && conv(x).Some?
    requires v == Node([Node([Node([x]), Node([x])]), Node([Node([x])])])
    ensures Shape(sp, v) == [2, 2, 1] && Trouble(sp, conv, v, [1, 1, 0]) == NullList
    ensures Ends(sp, conv, v, [2, 2, 1], r) ==> r == NullList
  {
    var b: seq<nat> := [2, 2, 1];
    RaggedGood(sp, conv, x, v);
    RaggedRanks(b);
    assert At(sp, v, [1, 1, 0]).None? by {
      assert [1, 1, 0][1..] == [1, 0];
    }
    assert [1, 1, 0][1..] == [1, 0] && InBounds(b, [1, 1, 0]) && InBounds(b, Zeros(3));
    forall u | InBounds(b, u) && Rank(b, u) < Rank(b, [1, 1, 0]) ensures Good(sp, conv, v, u) {
      assert u == [u[0], u[1], u[2]] && u[2] == 0;
    }
    assert FirstBad(sp, conv, v, b, [1, 1, 0]);
    if Ends(sp, conv, v, b, r) {
      assert !Good(sp, conv, v, [1, 1, 0]);
      var t :| FirstBad(sp, conv, v, b, t) && r == Trouble(sp, conv, v, t);
      FirstBadUnique(sp, conv, v, b, t, [1, 1, 0]);
    }
  }

  lemma RaggedGood<E>(sp: Splitter, conv: Val -> Option<E>, x: Val, v: Val)
    requires x.Leaf? && conv(x).Some?
    requires v == Node([Node([Node([x]), Node([x])]), Node([Node([x])])])
    ensures Good(sp, conv, v, [0, 0, 0]) && Good(sp, conv, v, [0, 1, 0]) && Good(sp, conv, v, [1, 0, 0])
    ensures Shape(sp, v) == [2, 2, 1]
  {
    assert [0, 0, 0][1..] == [0, 0] && [0, 1, 0][1..] == [1, 0] && [1, 0, 0][1..] == [0, 0];
    assert [0, 0][1..] == [0] && [1, 0][1..] == [0] && [0][1..] == [];
    var n := Node([x]);
    assert At(sp, n, [0]) == Some(x);
    var p, q := Node([n, n]), Node([n]);
    assert Shape(sp, n) == [1] && Shape(sp, p) == [2] + Shape(sp, n) && Shape(sp, v) == [2] + Shape(sp, p);
    assert At(sp, p, [0, 0]) == Some(x) && At(sp, p, [1, 0]) == Some(x) && At(sp, q, [0, 0]) == Some(x);
  }

  lemma RaggedRanks(b: seq<nat>)
    requires b == [2, 2, 1]
    ensures Rank(b, [1, 1, 0]) == 3
  {
    assert b[1..] == [2, 1] && [2, 1][1..] == [1] && [1][1..] == [];
    assert [1, 1, 0][1..] == [1, 0] && [1, 0][1..] == [0];
    assert Product([]) == 1 && Product([1]) == 1 && Product([2, 1]) == 2;
  }

  /** `objs` holds the nested list for each of the first `n` dimensions. */
  ghost predicate Tracks(sp: Splitter, v: Val, objs: seq<Option<Val>>, t: seq<nat>, n: nat)
    requires n <= |objs| && n <= |t| + 1
  {
    forall k :: 0 <= k < n ==> objs[k] == At(sp, v, t[..k])
  }

  /** Follows the indices to the inner lists from dimension `d` on. */
  method Descend<E>(sp: Splitter, ghost conv: Val -> Option<E>, v: Val, objs: array<Option<Val>>, indices: array<nat>,
      n: nat, d: nat)
    returns (r: Outcome)
    requires d < n <= objs.Length && n <= indices.Length && Tracks(sp, v, objs[..], indices[..n], d + 1)
    requires At(sp, v, indices[..d]).Some?
    modifies objs
    ensures r.Converted? ==> Tracks(sp, v, objs[..], indices[..n], n)
    ensures r.Converted? && At(sp, v, indices[..n - 1]).None? ==> Trouble(sp, conv, v, indices[..n]).NullList?
    ensures !r.Converted? ==>
        r == Trouble(sp, conv, v, indices[..n]) && exists k :: 0 <= k < n && Stuck(sp, v, indices[..n], k)
  {
    hide Tracks, At, Trouble, Items, Stuck;
    var t := indices[..n];
    assert indices[..d] == t[..d];
    for k := d + 1 to n
      invariant Tracks(sp, v, objs[..], t, k)
      invariant k == d + 1 ==> At(sp, v, t[..k - 1]).Some?
      invariant k > d + 1 ==> At(sp, v, t[..k - 2]).Some? && Items(sp, At(sp, v, t[..k - 2]).value).Some?
    {
      TracksAt(sp, v, objs[..], t, k);
      if objs[k - 1].None? {
        Missing(sp, conv, v, t, k - 1);
        return NullList;
      }
      var items := Items(sp, objs[k - 1].value);
      if items.None? {
        NoList(sp, conv, v, t, k - 1);
        return NotAList;
      }
      ghost var was := objs[..];
      objs[k] := Index(items.value, indices[k - 1]);
      TracksMore(sp, v, was, objs[..], t, k);
    }
    assert indices[..n - 1] == t[..n - 1];
    if n > d + 1 && At(sp, v, t[..n - 1]).None? {
      Missing(sp, conv, v, t, n - 1);
    }
    r := Converted;
  }

  /** After `k` indices there is nothing, or no list. */
  predicate Stuck(sp: Splitter, v: Val, t: seq<nat>, k: nat)
    requires k <= |t|
  {
    At(sp, v, t[..k]).None? || Items(sp, At(sp, v, t[..k]).value).None?
  }

  lemma TracksAt(sp: Splitter, v: Val, objs: seq<Option<Val>>, t: seq<nat>, k: nat)
    requires 0 < k <= |objs| && k <= |t| + 1 && Tracks(sp, v, objs, t, k)
    ensures objs[k - 1] == At(sp, v, t[..k - 1])
  {
  }

  lemma TracksMore(sp: Splitter, v: Val, objs: seq<Option<Val>>, objs': seq<Option<Val>>, t: seq<nat>, k: nat)
    requires 0 < k < |objs| && k <= |t| && Tracks(sp, v, objs, t, k) && objs[k - 1].Some?
        && Items(sp, objs[k - 1].value).Some?
    requires objs' == objs[k := Index(Items(sp, objs[k - 1].value).value, t[k - 1])]
    ensures Tracks(sp, v, objs', t, k + 1)
  {
    AtStep(sp, v, t[..k - 1], t[k - 1]);
    assert t[..k] == t[..k - 1] + [t[k - 1]];
  }

  lemma Missing<E>(sp: Splitter, conv: Val -> Option<E>, v: Val, t: seq<nat>, k: nat)
    requires 0 < k < |t| && At(sp, v, t[..k - 1]).Some? && Items(sp, At(sp, v, t[..k - 1]).value).Some?
        && At(sp, v, t[..k]).None?
    ensures Trouble(sp, conv, v, t).NullList? && Stuck(sp, v, t, k)
  {
    TroubleFrom(sp, conv, v, t, k - 1);
    AtStep(sp, v, t[..k - 1], t[k - 1]);
    assert t[..k] == t[..k - 1] + [t[k - 1]];
  }

  lemma NoList<E>(sp: Splitter, conv: Val -> Option<E>, v: Val, t: seq<nat>, k: nat)
    requires k < |t| && At(sp, v, t[..k]).Some? && Items(sp, At(sp, v, t[..k]).value).None?
    ensures Trouble(sp, conv, v, t).NotAList? && Stuck(sp, v, t, k)
  {
    TroubleFrom(sp, conv, v, t, k);
  }

  /** Along the first elements the dimensions are what they were found to be. */
  lemma {:induction false} FirstPath(sp: Splitter, v: Val, k: nat)
    requires Items(sp, v).Some? && k < |Shape(sp, v)|
    ensures !Stuck(sp, v, Zeros(|Shape(sp, v)|), k)
    decreases k
  {
    var b := Shape(sp, v);
    if k > 0 {
      var w := v.kids[0];
      assert b[1..] == Shape(sp, w);
      FirstPath(sp, w, k - 1);
      assert Zeros(|b|)[..k][1..] == Zeros(|b| - 1)[..k - 1];
    }
  }

  /** Counts the index tuple up by one, from the innermost dimension, carrying outwards; the
      dimension where the carry stops, or -1. */
  method CountUp(b: seq<nat>, indices: array<nat>) returns (d: int)
    requires |b| <= indices.Length && InBounds(b, indices[..|b|])
    modifies indices
    ensures -1 <= d < |b|
    ensures d == -1 ==> Exhausted(b, old(indices[..|b|]), 0)
    ensures d >= 0 ==>
        Exhausted(b, old(indices[..|b|]), d + 1) && indices[..|b|] == Carried(old(indices[..|b|]), d)
        && InBounds(b, indices[..|b|])
  {
    ghost var t := indices[..|b|];
    d := |b| - 1;
    while d >= 0
      invariant -1 <= d < |b|
      invariant Exhausted(b, t, d + 1)
      invariant forall k :: 0 <= k <= d ==> indices[k] == t[k]
      invariant forall k :: d < k < |b| ==> indices[k] == 0
    {
      indices[d] := indices[d] + 1;
      if indices[d] < b[d] {
        assert indices[..|b|] == Carried(t, d);
        break;
      }
      indices[d] := 0;
      d := d - 1;
    }
  }

  /** The first tuples in row-major order, and no others, have been written, each with the
      converted element found at it. */
  ghost predicate Written<E>(sp: Splitter, conv: Val -> Option<E>, v: Val, b: seq<nat>, cells: seq<int> -> E,
      order: seq<seq<nat>>) {
    forall k :: 0 <= k < |order| ==> WrittenAt(sp, conv, v, b, cells, order[k], k)
  }

  ghost predicate WrittenAt<E>(sp: Splitter, conv: Val -> Option<E>, v: Val, b: seq<nat>, cells: seq<int> -> E,
      t: seq<nat>, k: nat) {
    InBounds(b, t) && Rank(b, t) == k && At(sp, v, t).Some? && conv(At(sp, v, t).value) == Some(cells(t))
  }

  lemma WrittenMore<E>(sp: Splitter, conv: Val -> Option<E>, v: Val, b: seq<nat>, cells: seq<int> -> E,
      cells': seq<int> -> E,
                       order: seq<seq<nat>>, t: seq<nat>)
    requires Written(sp, conv, v, b, cells, order) && WrittenAt(sp, conv, v, b, cells', t, |order|)
    requires forall u :: u != t ==> cells'(u) == cells(u)
    ensures Written(sp, conv, v, b, cells', order + [t])
  {
    forall k | 0 <= k < |order + [t]| ensures WrittenAt(sp, conv, v, b, cells', (order + [t])[k], k) {
      if k < |order| { assert WrittenAt(sp, conv, v, b, cells, order[k], k); }
    }
  }

  /** Every tuple up to the number written has been written; once there are as many as the product
      of the counts, that is every tuple. */
  lemma AllWritten<E>(sp: Splitter, conv: Val -> Option<E>, v: Val, b: seq<nat>, cells: seq<int> -> E,
      order: seq<seq<nat>>, t: seq<nat>)
    requires Written(sp, conv, v, b, cells, order) && InBounds(b, t) && (Rank(b, t) < |order| || |order| == Product(b))
    ensures At(sp, v, t).Some? && conv(At(sp, v, t).value) == Some(cells(t)) && t in order
  {
    RankBelow(b, t);
    assert WrittenAt(sp, conv, v, b, cells, order[Rank(b, t)], Rank(b, t));
    RankInjective(b, t, order[Rank(b, t)]);
  }

  /** Fills the array. How it ends is determined by the first tuple that is not good; on success the
      tuples were visited once each, in row-major order, and the array holds the converted elements. */
  method Fill<E>(sp: Splitter, conv: Val -> Option<E>, v: Val, b: seq<nat>, a: SafeArray<E>)
      returns (r: Outcome, ghost order: seq<seq<nat>>)
    requires Items(sp, v).Some? && b == Shape(sp, v) && |b| <= MAX_DIMS && a.counts == b && a.lower == Zeros(|b|)
    modifies a
    ensures b != [] && Ends(sp, conv, v, b, r)
    ensures r.Converted? ==> |order| == Product(b) && Written(sp, conv, v, b, a.cells, order)
  {
    hide Rank, Product, Written, Good, Carried, Tracks, At, Index, Items, Exhausted, Trouble, Ends, Stuck, Shape,
        FirstBad;
    RestStep(sp, v);
    order := [];
    var n := |b|;
    var objs := new Option<Val>[MAX_DIMS](_ => None);
    var indices := new nat[MAX_DIMS](_ => 0);
    objs[0] := Some(v);
    var d := 0;
    Begins(sp, conv, v, b, a.cells, objs[..], indices[..n]);
    while true
      invariant 0 <= d < n && Tracks(sp, v, objs[..], indices[..n], d + 1) && At(sp, v, indices[..d]).Some?
      invariant if order == [] then indices[..n] == Zeros(n) else InBounds(b, Zeros(n))
      invariant InBounds(b, Zeros(n)) ==> InBounds(b, indices[..n])
      invariant Rank(b, indices[..n]) == |order| && Written(sp, conv, v, b, a.cells, order)
      decreases Product(b) - |order|
    {
      ghost var t := indices[..n];
      r, order := Visit(sp, conv, v, b, a, objs, indices, d, order);
      if !r.Converted? {
        return;
      }
      RankBelow(b, t);
      var next := CountUp(b, indices);
      if next < 0 {
        ExhaustedRank(b, t);
        Succeeds(sp, conv, v, b, a.cells, order);
        return Converted, order;
      }
      CarriedRank(b, t, next);
      TracksCarried(sp, v, objs[..], t, next);
      assert indices[..next] == indices[..n][..next];
      d := next;
    }
  }

  /** One tuple: the descent to its element and the conversion of it into the array. */
  method Visit<E>(sp: Splitter, conv: Val -> Option<E>, v: Val, b: seq<nat>, a: SafeArray<E>,
      objs: array<Option<Val>>, indices: array<nat>, d: nat, ghost order: seq<seq<nat>>)
    returns (r: Outcome, ghost order': seq<seq<nat>>)
    requires Items(sp, v).Some? && b == Shape(sp, v) && a.counts == b && a.lower == Zeros(|b|)
    requires d < |b| <= objs.Length && |b| <= indices.Length && Tracks(sp, v, objs[..], indices[..|b|], d + 1)
    requires At(sp, v, indices[..d]).Some?
    requires InBounds(b, Zeros(|b|)) ==> InBounds(b, indices[..|b|])
    requires if order == [] then indices[..|b|] == Zeros(|b|) else InBounds(b, Zeros(|b|))
    requires Rank(b, indices[..|b|]) == |order| && Written(sp, conv, v, b, a.cells, order)
    modifies a, objs
    ensures !r.Converted? ==> Ends(sp, conv, v, b, r)
    ensures r.Converted? ==>
              var t := indices[..|b|];
              && InBounds(b, t) && InBounds(b, Zeros(|b|)) && order' == order + [t]
              && Written(sp, conv, v, b, a.cells, order') && Tracks(sp, v, objs[..], t, |b|) && At(sp, v, t).Some?
  {
    hide Rank, Product, Written, Good, Carried, Tracks, At, Index, Items, Exhausted, Trouble, Ends, Stuck, Shape,
        FirstBad;
    order' := order;
    var n := |b|;
    r := Descend(sp, conv, v, objs, indices, n, d);
    ghost var t := indices[..n];
    if !r.Converted? {
      NotStuck(sp, v, b, t);
      Fails(sp, conv, v, b, a.cells, order, t, r);
      return;
    }
    if !a.Inside(indices[..n]) {
      EndsBadIndex(sp, conv, v, b);
      return BadIndex, order;
    }
    assert t[..n - 1] == indices[..n - 1];
    r := LastStep(sp, conv, v, objs[n - 1], indices[n - 1], objs[..], t);
    InsideIs(b, t);
    if !r.Converted? {
      Fails(sp, conv, v, b, a.cells, order, t, r);
      return;
    }
    var x := Index(Items(sp, objs[n - 1].value).value, indices[n - 1]);
    ghost var cells := a.cells;
    a.Put(indices[..n], conv(x.value).value);
    WrittenMore(sp, conv, v, b, cells, a.cells, order, t);
    order' := order + [t];
  }

  /** The accesses after the descent, in the source's order. */
  method LastStep<E>(sp: Splitter, conv: Val -> Option<E>, ghost v: Val, obj: Option<Val>, i: nat,
      ghost objs: seq<Option<Val>>, ghost t: seq<nat>)
    returns (r: Outcome)
    requires 0 < |t| <= |objs| && Tracks(sp, v, objs, t, |t|) && obj == objs[|t| - 1] && i == t[|t| - 1]
    requires At(sp, v, t[..|t| - 1]).None? ==> Trouble(sp, conv, v, t).NullList?
    ensures r == Trouble(sp, conv, v, t)
    ensures r.Converted? ==>
              obj.Some? && Items(sp, obj.value).Some? && Index(Items(sp, obj.value).value, i).Some? &&
              At(sp, v, t) == Index(Items(sp, obj.value).value, i) && conv(At(sp, v, t).value).Some?
  {
    var n := |t|;
    if obj.None? {
      return NullList;
    }
    TroubleFrom(sp, conv, v, t, n - 1);
    AtStep(sp, v, t[..n - 1], t[n - 1]);
    assert t == t[..n - 1] + [t[n - 1]];
    var items := Items(sp, obj.value);
    if items.None? {
      return NotAList;
    }
    var x := Index(items.value, i);
    if x.None? {
      return TooFew;
    }
    var y := conv(x.value);
    if y.None? {
      return BadElement;
    }
    r := Converted;
  }

  lemma Begins<E>(sp: Splitter, conv: Val -> Option<E>, v: Val, b: seq<nat>, cells: seq<int> -> E,
      objs: seq<Option<Val>>, t: seq<nat>)
    requires b != [] && |t| == |b| && objs != [] && objs[0] == Some(v) && forall k :: 0 <= k < |t| ==> t[k] == 0
    ensures Tracks(sp, v, objs, t, 1) && t == Zeros(|b|) && Rank(b, t) == 0 && Written(sp, conv, v, b, cells, [])
    ensures At(sp, v, []).Some? && t[..0] == []
  {
    assert t == Zeros(|b|);
    ZerosFirst(b);
  }

  /** The first tuple does not get stuck, so a tuple that does is one of a list without empty
      dimensions. */
  lemma NotStuck(sp: Splitter, v: Val, b: seq<nat>, t: seq<nat>)
    requires Items(sp, v).Some? && b == Shape(sp, v) && |t| == |b| && exists k :: 0 <= k < |b| && Stuck(sp, v, t, k)
    ensures t != Zeros(|b|)
  {
    hide Stuck, Shape;
    var k :| 0 <= k < |b| && Stuck(sp, v, t, k);
    FirstPath(sp, v, k);
  }

  lemma InsideIs(b: seq<nat>, t: seq<nat>)
    requires InBounds(b, t)
    ensures InBounds(b, Zeros(|b|))
  {
    forall d | 0 <= d < |b| ensures Zeros(|b|)[d] < b[d] {
      assert t[d] < b[d];
    }
  }

  lemma EndsBadIndex<E>(sp: Splitter, conv: Val -> Option<E>, v: Val, b: seq<nat>)
    requires b != [] && !InBounds(b, Zeros(|b|))
    ensures Ends(sp, conv, v, b, BadIndex)
  {
  }

  lemma Fails<E>(sp: Splitter, conv: Val -> Option<E>, v: Val, b: seq<nat>, cells: seq<int> -> E,
      order: seq<seq<nat>>, t: seq<nat>, r: Outcome)
    requires b != [] && InBounds(b, Zeros(|b|)) && InBounds(b, t) && Rank(b, t) == |order|
    requires Written(sp, conv, v, b, cells, order) && r == Trouble(sp, conv, v, t) && !r.Converted?
    ensures Ends(sp, conv, v, b, r)
  {
    hide Written, Trouble, Rank, At;
    GoodIs(sp, conv, v, t);
    forall u | InBounds(b, u) && Rank(b, u) < Rank(b, t) ensures Good(sp, conv, v, u) {
      AllWritten(sp, conv, v, b, cells, order, u);
    }
    assert FirstBad(sp, conv, v, b, t);
  }

  lemma Succeeds<E>(sp: Splitter, conv: Val -> Option<E>, v: Val, b: seq<nat>, cells: seq<int> -> E,
      order: seq<seq<nat>>)
    requires b != [] && InBounds(b, Zeros(|b|)) && Written(sp, conv, v, b, cells, order) && |order| == Product(b)
    ensures Ends(sp, conv, v, b, Converted)
  {
    forall t | InBounds(b, t) ensures Good(sp, conv, v, t) {
      AllWritten(sp, conv, v, b, cells, order, t);
    }
  }

  lemma TracksCarried(sp: Splitter, v: Val, objs: seq<Option<Val>>, t: seq<nat>, d: nat)
    requires d < |t| <= |objs| && Tracks(sp, v, objs, t, |t|) && At(sp, v, t).Some?
    ensures Tracks(sp, v, objs, Carried(t, d), d + 1) && At(sp, v, Carried(t, d)[..d]).Some?
  {
    forall k | 0 <= k < d + 1 ensures objs[k] == At(sp, v, Carried(t, d)[..k]) {
      assert Carried(t, d)[..k] == t[..k];
    }
    assert Carried(t, d)[..d] == t[..d];
    if At(sp, v, t[..d]).None? { AtPrefix(sp, v, t, d); }
  }

  /** ObjToSAFEARRAY for element types other than bytes. */
  method FromNested<E>(sp: Splitter, conv: Val -> Option<E>, v: Val, zero: E)
      returns (r: Outcome, a: SafeArray<E>, ghost order: seq<seq<nat>>)
    ensures fresh(a)
    ensures Items(sp, v).None? ==> r == NotAList
    ensures Items(sp, v).Some? && |Shape(sp, v)| > MAX_DIMS ==> r == TooDeep
    ensures Items(sp, v).Some? && Items(sp, v).value == [] ==> r == Converted
    ensures Items(sp, v).Some? && Items(sp, v).value != [] && |Shape(sp, v)| <= MAX_DIMS ==>
              var b := Shape(sp, v);
              && b != [] && Ends(sp, conv, v, b, r)
              && (r.Converted? <==> InBounds(b, Zeros(|b|)) && forall t :: InBounds(b, t) ==> Good(sp, conv, v, t))
              && (r.NullList? <==>
                    InBounds(b, Zeros(|b|)) && exists t, k ::
                        FirstBad(sp, conv, v, b, t) && 0 < k < |b| && ShortAt(sp, v, t, k))
    ensures r.Converted? ==> Items(sp, v).Some? && a.counts == Shape(sp, v) && a.lower == Zeros(|Shape(sp, v)|)
    ensures r.Converted? && Items(sp, v).value != [] ==>
              |order| == Product(Shape(sp, v)) && Written(sp, conv, v, Shape(sp, v), a.cells, order)
    ensures r.NullList? ==> Items(sp, v).Some? && !Deep(sp, v, Shape(sp, v))
  {
    hide Written, Good, Product, Ends, Items, Deep, FirstBad, ShortAt;
    var b;
    order := [];
    r, b := FindShape(sp, v);
    a := new SafeArray<E>(Zeros(|b|), b, zero);
    if Items(sp, v).Some? { RestStep(sp, v); }
    if !r.Converted? || b[0] == 0 {
      return;
    }
    r, order := Fill(sp, conv, v, b, a);
    EndsOnce(sp, conv, v, b, r);
  }

  // ----- back to a nested list

  /** The nested list of the cells whose tuples start with `t`. */
  function Tree<E>(lower: seq<int>, counts: seq<nat>, cells: seq<int> -> E, back: E -> Val, t: seq<int>): Val
    requires |t| < |counts| == |lower|
    decreases |counts| - |t|
  {
    Node(seq(counts[|t|], i requires 0 <= i < counts[|t|] => Kid(lower, counts, cells, back, t, i)))
  }

  function Kid<E>(lower: seq<int>, counts: seq<nat>, cells: seq<int> -> E, back: E -> Val, t: seq<int>, i: nat): Val
    requires |t| < |counts| == |lower|
    decreases |counts| - |t|, 0
  {
    var u := t + [lower[|t|] + i];
    if |u| == |counts| then back(cells(u)) else Tree(lower, counts, cells, back, u)
  }

  /** ObjFromSAFEARRAYDimension: the recursive reader, which counts in `indices`. */
  method ReadDimension<E>(a: SafeArray<E>, back: E -> Val, dim: nat, indices: array<int>) returns (r: Option<Val>)
    requires dim < |a.counts| == |a.lower|
    requires |a.counts| <= indices.Length ==>
        forall d :: 0 <= d < dim ==> a.lower[d] <= indices[d] < a.lower[d] + a.counts[d]
    modifies indices
    ensures |a.counts| > indices.Length ==> r == None
    ensures |a.counts| <= indices.Length ==> indices[..dim] == old(indices[..dim])
    ensures |a.counts| <= indices.Length ==> r == Some(Tree(a.lower, a.counts, a.cells, back, old(indices[..dim])))
    decreases |a.counts| - dim
  {
    if indices.Length < |a.counts| {
      return None;
    }
    ghost var t := indices[..dim];
    var kids: seq<Val> := [];
    for i := 0 to a.counts[dim]
      invariant indices[..dim] == t && |kids| == i
      invariant forall d :: 0 <= d < dim ==> a.lower[d] <= t[d] < a.lower[d] + a.counts[d]
      invariant forall k :: 0 <= k < i ==> kids[k] == Kid(a.lower, a.counts, a.cells, back, t, k)
    {
      indices[dim] := a.lower[dim] + i;
      assert indices[..dim + 1] == t + [a.lower[dim] + i];
      if dim < |a.counts| - 1 {
        var kid := ReadDimension(a, back, dim + 1, indices);
        assert indices[..dim] == indices[..dim + 1][..dim];
        kids := kids + [kid.value];
      } else {
        kids := kids + [back(a.Get(indices[..dim + 1]))];
      }
    }
    assert kids == Tree(a.lower, a.counts, a.cells, back, t).kids;
    r := Some(Node(kids));
  }

  /** Index by index, the lower bound and the offset in the dimension. */
  function FromLower(lower: seq<int>, t: seq<nat>): seq<int>
    requires |t| <= |lower|
  {
    seq(|t|, d requires 0 <= d < |t| => lower[d] + t[d])
  }

  /** Which cell is read where: for any lower bounds and counts, following the indices of a tuple in the
      list that is read leads to the cell whose indices are those above the lower bounds, and each list
      on the way has as many elements as its dimension. */
  lemma ReadsCell<E>(sp: Splitter, lower: seq<int>, counts: seq<nat>, cells: seq<int> -> E, back: E -> Val,
      t: seq<nat>)
    requires counts != [] && |lower| == |counts| && InBounds(counts, t)
    ensures At(sp, Tree(lower, counts, cells, back, []), t) == Some(back(cells(FromLower(lower, t))))
    ensures forall d {:trigger t[..d]} :: 0 <= d < |t| ==>
              var w := At(sp, Tree(lower, counts, cells, back, []), t[..d]);
              w.Some? && w.value.Node? && |w.value.kids| == counts[d]
  {
    TreeAt(sp, lower, counts, cells, back, t, 0);
    assert t[0..] == t && FromLower(lower, t[..0]) == [] && FromLower(lower, t[..|t|]) == FromLower(lower, t);
    forall d {:trigger t[..d]} | 0 <= d < |t|
      ensures var w := At(sp, Tree(lower, counts, cells, back, []), t[..d]);
              w.Some? && w.value.Node? && |w.value.kids| == counts[d]
    {
      TreeOn(sp, lower, counts, cells, back, t, 0, d);
      assert t[0..d] == t[..d];
    }
  }

  lemma {:induction false} TreeAt<E>(sp: Splitter, lower: seq<int>, counts: seq<nat>, cells: seq<int> -> E,
      back: E -> Val, t: seq<nat>, k: nat)
    requires k < |counts| == |lower| && InBounds(counts, t)
    ensures At(sp, Tree(lower, counts, cells, back, FromLower(lower, t[..k])), t[k..]) ==
        Some(back(cells(FromLower(lower, t))))
    decreases |counts| - k
  {
    var u := FromLower(lower, t[..k]);
    assert FromLower(lower, t[..k + 1]) == u + [lower[k] + t[k]];
    assert t[k..][1..] == t[k + 1..] && t[k..][0] == t[k];
    var tree := Tree(lower, counts, cells, back, u);
    assert tree.kids[t[k]] == Kid(lower, counts, cells, back, u, t[k]);
    if k + 1 < |counts| {
      TreeAt(sp, lower, counts, cells, back, t, k + 1);
    } else {
      assert t[..k + 1] == t && t[k + 1..] == [];
      assert At(sp, tree.kids[t[k]], []) == Some(tree.kids[t[k]]);
    }
  }

  lemma {:induction false} TreeOn<E>(sp: Splitter, lower: seq<int>, counts: seq<nat>, cells: seq<int> -> E,
      back: E -> Val, t: seq<nat>, k: nat, d: nat)
    requires k <= d < |counts| == |lower| && InBounds(counts, t)
    ensures At(sp, Tree(lower, counts, cells, back, FromLower(lower, t[..k])), t[k..d]) ==
        Some(Tree(lower, counts, cells, back, FromLower(lower, t[..d])))
    decreases d - k
  {
    var u := FromLower(lower, t[..k]);
    var tree := Tree(lower, counts, cells, back, u);
    if k < d {
      assert FromLower(lower, t[..k + 1]) == u + [lower[k] + t[k]];
      assert t[k..d][1..] == t[k + 1..d] && t[k..d][0] == t[k];
      assert tree.kids[t[k]] == Kid(lower, counts, cells, back, u, t[k]);
      TreeOn(sp, lower, counts, cells, back, t, k + 1, d);
    } else {
      assert t[k..d] == [] && At(sp, tree, []) == Some(tree);
    }
  }

  // ----- there and back

  /** The part of a nested list that the shape covers, with each element replaced. */
  function Image(sp: Splitter, v: Val, b: seq<nat>, f: Val -> Val): Val
    requires b != []
    decreases |b|
  {
    if Items(sp, v).None? then v
    else
      var items := Items(sp, v).value;
      Node(seq(b[0], i requires 0 <= i < b[0] =>
        if i >= |items| then Leaf("") else if |b| == 1 then f(items[i]) else Image(sp, items[i], b[1..], f)))
  }

  /** Every nested list has exactly as many elements as the shape says. */
  predicate Rectangular(v: Val, b: seq<nat>)
    decreases |b|
  {
    if b == [] then true
    else v.Node? && |v.kids| == b[0] && forall i :: 0 <= i < |v.kids| ==> Rectangular(v.kids[i], b[1..])
  }

  /** An element converted there and back. */
  function There<E>(conv: Val -> Option<E>, back: E -> Val): Val -> Val {
    x => if conv(x).Some? then back(conv(x).value) else x
  }

  /** Every cell holds the converted element found at its tuple. */
  ghost predicate Holds<E>(sp: Splitter, conv: Val -> Option<E>, v: Val, b: seq<nat>, cells: seq<int> -> E) {
    forall u: seq<nat> :: InBounds(b, u) ==> At(sp, v, u).Some? && conv(At(sp, v, u).value) == Some(cells(u))
  }

  lemma HeldAt<E>(sp: Splitter, conv: Val -> Option<E>, v: Val, b: seq<nat>, cells: seq<int> -> E, t: seq<nat>)
    requires Holds(sp, conv, v, b, cells) && |t| <= |b| && InBounds(b[..|t|], t) && InBounds(b, Zeros(|b|))
    ensures At(sp, v, t).Some?
    ensures |t| == |b| ==> conv(At(sp, v, t).value) == Some(cells(t))
  {
    var u := t + Zeros(|b| - |t|);
    assert forall d :: |t| <= d < |b| ==> Zeros(|b|)[d] < b[d];
    assert forall d :: 0 <= d < |t| ==> u[d] == t[d] < b[..|t|][d] == b[d];
    assert InBounds(b, u) && u[..|t|] == t;
    if At(sp, v, t).None? { AtPrefix(sp, v, u, |t|); }
    if |t| == |b| { assert u == t; }
  }

  /** What reading gives back for what was written: the part of the list the shape covers, element
      by element, each converted there and back. */
  lemma {:induction false} TreeOf<E>(sp: Splitter, conv: Val -> Option<E>, v: Val, back: E -> Val, b: seq<nat>,
      cells: seq<int> -> E, t: seq<nat>)
    requires |t| < |b| && InBounds(b[..|t|], t) && InBounds(b, Zeros(|b|)) && Holds(sp, conv, v, b, cells)
    ensures At(sp, v, t).Some?
    ensures Tree(Zeros(|b|), b, cells, back, t) == Image(sp, At(sp, v, t).value, b[|t|..], There(conv, back))
    decreases |b| - |t|
  {
    hide Holds;
    HeldAt(sp, conv, v, b, cells, t);
    var w, f, n := At(sp, v, t).value, There(conv, back), b[|t|];
    IsList(sp, conv, v, b, cells, t);
    var items := Items(sp, w).value;
    forall i: nat | i < n
      ensures i < |items|
      ensures Kid(Zeros(|b|), b, cells, back, t, i) == if |b[|t|..]| == 1 then f(items[i])
          else Image(sp, items[i], b[|t|..][1..], f)
    {
      var u := t + [i];
      AtStep(sp, v, t, i);
      assert b[..|u|] == b[..|t|] + [b[|t|]];
      assert InBounds(b[..|u|], u);
      HeldAt(sp, conv, v, b, cells, u);
      assert u == t + [Zeros(|b|)[|t|] + i];
      if |u| < |b| {
        TreeOf(sp, conv, v, back, b, cells, u);
        assert b[|t|..][1..] == b[|u|..];
      }
    }
    assert Tree(Zeros(|b|), b, cells, back, t).kids == Image(sp, w, b[|t|..], f).kids;
  }

  lemma IsList<E>(sp: Splitter, conv: Val -> Option<E>, v: Val, b: seq<nat>, cells: seq<int> -> E, t: seq<nat>)
    requires |t| < |b| && InBounds(b[..|t|], t) && InBounds(b, Zeros(|b|)) && Holds(sp, conv, v, b, cells)
        && At(sp, v, t).Some?
    ensures Items(sp, At(sp, v, t).value).Some?
  {
    var u := t + [0];
    assert b[..|u|] == b[..|t|] + [b[|t|]] && Zeros(|b|)[|t|] < b[|t|];
    assert InBounds(b[..|u|], u);
    HeldAt(sp, conv, v, b, cells, u);
    AtStep(sp, v, t, 0);
  }

  /** Every element comes back from the conversion as it was. */
  ghost predicate Survives<E>(sp: Splitter, conv: Val -> Option<E>, back: E -> Val, v: Val, b: seq<nat>) {
    forall t :: InBounds(b, t) ==>
      At(sp, v, t).Some? && There(conv, back)(At(sp, v, t).value) == At(sp, v, t).value
  }

  /** Writing a rectangular nested list of elements that survive conversion and reading the array
      gives the same nested list. */
  lemma RoundTrip<E>(sp: Splitter, conv: Val -> Option<E>, v: Val, back: E -> Val, b: seq<nat>, cells: seq<int> -> E,
      order: seq<seq<nat>>)
    requires b != [] && InBounds(b, Zeros(|b|)) && |order| == Product(b) && Written(sp, conv, v, b, cells, order)
    ensures Tree(Zeros(|b|), b, cells, back, []) == Image(sp, v, b, There(conv, back))
    ensures Rectangular(v, b) && Survives(sp, conv, back, v, b) ==> Tree(Zeros(|b|), b, cells, back, []) == v
  {
    forall u: seq<nat> | InBounds(b, u) ensures At(sp, v, u).Some? && conv(At(sp, v, u).value) == Some(cells(u)) {
      AllWritten(sp, conv, v, b, cells, order, u);
    }
    assert Holds(sp, conv, v, b, cells);
    assert b[..0] == [] && b[0..] == b;
    TreeOf(sp, conv, v, back, b, cells, []);
    if Rectangular(v, b) && Survives(sp, conv, back, v, b) {
      ImageSame(sp, v, b, There(conv, back));
    }
  }

  lemma {:induction false} ImageSame(sp: Splitter, v: Val, b: seq<nat>, f: Val -> Val)
    requires b != [] && Rectangular(v, b)
    requires forall t :: InBounds(b, t) ==> At(sp, v, t).Some? && f(At(sp, v, t).value) == At(sp, v, t).value
    ensures Image(sp, v, b, f) == v
    decreases |b|
  {
    var c := b[1..];
    forall i: nat | i < b[0] ensures (if c == [] then f(v.kids[i]) else Image(sp, v.kids[i], c, f)) == v.kids[i] {
      forall t | InBounds(c, t) ensures At(sp, v.kids[i], t).Some?
          && f(At(sp, v.kids[i], t).value) == At(sp, v.kids[i], t).value {
        var u := [i] + t;
        assert u[1..] == t && forall d :: 0 < d < |b| ==> u[d] == t[d - 1] < c[d - 1] == b[d];
        assert InBounds(b, u);
      }
      if c == [] {
        assert InBounds(c, []);
      } else {
        assert Rectangular(v.kids[i], c);
        ImageSame(sp, v.kids[i], c, f);
      }
    }
    assert Image(sp, v, b, f).kids == v.kids;
  }
}

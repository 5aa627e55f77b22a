/** Index tuples of a rectangular array in row-major order. */
module IndexTuples {
  import opened Basics

  predicate InBounds(b: seq<nat>, t: seq<nat>) {
    |t| == |b| && forall d :: 0 <= d < |b| ==> t[d] < b[d]
  }

  function Product(b: seq<nat>): nat {
    if b == [] then 1 else Times(b[0], Product(b[1..]))
  }

  lemma TimesOneMore(x: nat, y: nat)
    ensures Times(x + 1, y) == Times(x, y) + y
  {
  }

  lemma {:induction false} TimesUpTo(x: nat, z: nat, y: nat)
    requires x < z
    ensures Times(x, y) + y <= Times(z, y)
    decreases z
  {
    hide Times;
    TimesOneMore(z - 1, y);
    if x < z - 1 { TimesUpTo(x, z - 1, y); }
  }

  /** The position of a tuple in row-major order. */
  function Rank(b: seq<nat>, t: seq<nat>): nat
    requires |t| == |b|
  {
    if b == [] then 0 else Times(t[0], Product(b[1..])) + Rank(b[1..], t[1..])
  }

  lemma {:induction false} RankBelow(b: seq<nat>, t: seq<nat>)
    requires InBounds(b, t)
    ensures Rank(b, t) < Product(b)
  {
    hide Times;
    if b != [] {
      RankBelow(b[1..], t[1..]);
      TimesUpTo(t[0], b[0], Product(b[1..]));
    }
  }

  /** Position order is lexicographic order: the first difference decides. */
  lemma {:induction false} RankOrder(b: seq<nat>, t: seq<nat>, u: seq<nat>, d: nat)
    requires InBounds(b, t) && InBounds(b, u) && d < |b| && t[..d] == u[..d] && t[d] < u[d]
    ensures Rank(b, t) < Rank(b, u)
  {
    hide Times;
    if d == 0 {
      RankBelow(b[1..], t[1..]);
      TimesUpTo(t[0], u[0], Product(b[1..]));
    } else {
      assert t[0] == t[..d][0] == u[..d][0] == u[0];
      assert t[1..][..d - 1] == t[..d][1..] == u[..d][1..] == u[1..][..d - 1];
      RankOrder(b[1..], t[1..], u[1..], d - 1);
    }
  }

  /** Different tuples have different positions: no tuple comes twice. */
  lemma {:induction false} RankInjective(b: seq<nat>, t: seq<nat>, u: seq<nat>)
    requires InBounds(b, t) && InBounds(b, u) && Rank(b, t) == Rank(b, u)
    ensures t == u
  {
    if d :| 0 <= d < |b| && t[d] != u[d] && t[..d] == u[..d] {
      if t[d] < u[d] { RankOrder(b, t, u, d); } else { RankOrder(b, u, t, d); }
    } else {
      SamePrefix(b, t, u, |b|);
    }
  }

  lemma {:induction false} SamePrefix(b: seq<nat>, t: seq<nat>, u: seq<nat>, n: nat)
    requires |t| == |u| == |b| && n <= |b|
    requires forall d :: 0 <= d < |b| && t[..d] == u[..d] ==> t[d] == u[d]
    ensures t[..n] == u[..n]
  {
    if n > 0 {
      SamePrefix(b, t, u, n - 1);
      assert t[..n] == t[..n - 1] + [t[n - 1]] && u[..n] == u[..n - 1] + [u[n - 1]];
    }
  }

  function Zeros(n: nat): (z: seq<nat>)
    ensures |z| == n && forall k :: 0 <= k < n ==> z[k] == 0
  {
    seq(n, _ => 0)
  }

  lemma {:induction false} ZerosFirst(b: seq<nat>)
    ensures Rank(b, Zeros(|b|)) == 0
  {
    if b != [] {
      ZerosFirst(b[1..]);
      assert Zeros(|b|)[1..] == Zeros(|b| - 1);
    }
  }

  /** Every dimension from `d` on is at its last index. */
  predicate Exhausted(b: seq<nat>, t: seq<nat>, d: nat) {
    |t| == |b| && forall k :: d <= k < |b| ==> t[k] + 1 == b[k]
  }

  lemma {:induction false} ExhaustedRank(b: seq<nat>, t: seq<nat>)
    requires Exhausted(b, t, 0)
    ensures Rank(b, t) + 1 == Product(b)
  {
    hide Times;
    if b != [] {
      ExhaustedRank(b[1..], t[1..]);
      TimesOneMore(t[0], Product(b[1..]));
    }
  }

  /** Carrying into dimension `d`: the next tuple. */
  function Carried(t: seq<nat>, d: nat): (u: seq<nat>)
    requires d < |t|
    ensures |u| == |t|
  {
    t[..d] + [t[d] + 1] + Zeros(|t| - d - 1)
  }

  /** The carry moves on by exactly one position. */
  lemma {:induction false} CarriedRank(b: seq<nat>, t: seq<nat>, d: nat)
    requires d < |b| && Exhausted(b, t, d + 1)
    ensures Rank(b, Carried(t, d)) == Rank(b, t) + 1
  {
    hide Times;
    var u := Carried(t, d);
    if d == 0 {
      assert u[1..] == Zeros(|b| - 1);
      ZerosFirst(b[1..]);
      ExhaustedRank(b[1..], t[1..]);
      TimesOneMore(t[0], Product(b[1..]));
    } else {
      assert u[1..] == Carried(t[1..], d - 1);
      CarriedRank(b[1..], t[1..], d - 1);
    }
  }
}

/** PBKDF2, the buffer code against section 5.2 of RFC 2898. The pseudorandom function is abstract. */
module Pbkdf2 {
  import opened Basics

  type Octets = seq<bv8>

  /** A keyed function of output length `hlen`. Keying it, and every use of it, may fail. */
  datatype Prf = Prf(hlen: nat, keyed: Octets -> bool, apply: (Octets, Octets) -> Option<Octets>)

  ghost predicate PrfOk(f: Prf) {
    2 <= f.hlen < 0x1_0000_0000 &&
    forall p: Octets, t: Octets {:trigger f.apply(p, t)} :: f.apply(p, t).Some? ==> |f.apply(p, t).value| == f.hlen
  }

  // ----- RFC 2898, section 5.2

  /** INT(i): four octets, most significant first. */
  function BlockIndex(i: nat): (r: Octets)
    ensures |r| == 4
  {
    [Octet(i / 0x100_0000), Octet(i / 0x1_0000), Octet(i / 0x100), Octet(i)]
  }

  function Octet(x: nat): bv8 {
    (x % 0x100) as bv8
  }

  function Xor(s: Octets, t: Octets): (r: Octets)
    requires |s| == |t|
    ensures |r| == |s| && forall k :: 0 <= k < |r| ==> r[k] == s[k] ^ t[k]
  {
    seq(|s|, k requires 0 <= k < |s| => s[k] ^ t[k])
  }

  /** What the j-th use of the function in block `i` is applied to: the salt and the block index,
      then the result before. */
  function Input(f: Prf, p: Octets, salt: Octets, i: nat, j: nat): Option<Octets>
    requires j >= 1
    decreases j, 0
  {
    if j == 1 then Some(salt + BlockIndex(i)) else U(f, p, salt, i, j - 1)
  }

  /** U_j of block `i`. */
  function U(f: Prf, p: Octets, salt: Octets, i: nat, j: nat): Option<Octets>
    requires j >= 1
    decreases j, 1
  {
    var x := Input(f, p, salt, i, j);
    if x.None? then None else f.apply(p, x.value)
  }

  /** T_i = U_1 xor ... xor U_c. */
  function T(f: Prf, p: Octets, salt: Octets, c: nat, i: nat): (r: Option<Octets>)
    requires PrfOk(f) && c >= 1
    ensures r.Some? ==> |r.value| == f.hlen
  {
    if c == 1 then U(f, p, salt, i, 1)
    else
      var t, u := T(f, p, salt, c - 1, i), U(f, p, salt, i, c);
      if t.None? || u.None? then None else Some(Xor(t.value, u.value))
  }

  /** T_1 || ... || T_l. */
  function Blocks(f: Prf, p: Octets, salt: Octets, c: nat, l: nat): (r: Option<Octets>)
    requires PrfOk(f) && c >= 1
    ensures r.Some? ==> |r.value| == l * f.hlen
  {
    if l == 0 then Some([])
    else
      var b, t := Blocks(f, p, salt, c, l - 1), T(f, p, salt, c, l);
      if b.None? || t.None? then None else Some(b.value + t.value)
  }

  /** The number of blocks a key of `n` octets needs. */
  function BlockCount(f: Prf, n: nat): (l: nat)
    requires f.hlen > 0 && n > 0
    ensures (l - 1) * f.hlen < n <= l * f.hlen && l >= 1
  {
    CountIs(n, f.hlen);
    (n - 1) / f.hlen + 1
  }

  lemma CountIs(n: nat, h: nat)
    requires h > 0 && n > 0
    ensures (n - 1) / h * h < n <= ((n - 1) / h + 1) * h && (n - 1) / h >= 0
  {
    var q := (n - 1) / h;
    assert n - 1 == q * h + (n - 1) % h;
    assert (q + 1) * h == q * h + h;
  }

  /** The derived key of `n` octets; none if a use of the function it takes fails. */
  function Key(f: Prf, p: Octets, salt: Octets, c: nat, n: nat): (r: Option<Octets>)
    requires PrfOk(f) && c >= 1 && n > 0
    ensures r.Some? ==> |r.value| == n
  {
    var b := Blocks(f, p, salt, c, BlockCount(f, n));
    if b.None? then None else Some(b.value[..n])
  }

  /** Octet `k` of block `i` comes after the blocks before it. */
  lemma {:induction false} BlocksAt(f: Prf, p: Octets, salt: Octets, c: nat, l: nat, i: nat, k: nat)
    requires PrfOk(f) && c >= 1 && i < l && k < f.hlen && Blocks(f, p, salt, c, l).Some?
    ensures T(f, p, salt, c, i + 1).Some?
    ensures 0 <= i * f.hlen + k < |Blocks(f, p, salt, c, l).value|
    ensures Blocks(f, p, salt, c, l).value[i * f.hlen + k] == T(f, p, salt, c, i + 1).value[k]
  {
    hide T;
    assert l * f.hlen == (l - 1) * f.hlen + f.hlen;
    MulMono(0, i, f.hlen);
    if i < l - 1 {
      BlocksAt(f, p, salt, c, l - 1, i, k);
    }
  }

  /** Asking for a longer key only appends to the shorter one. */
  lemma KeyPrefix(f: Prf, p: Octets, salt: Octets, c: nat, n: nat, m: nat)
    requires PrfOk(f) && c >= 1 && 0 < n <= m && Key(f, p, salt, c, m).Some?
    ensures Key(f, p, salt, c, n).Some? && Key(f, p, salt, c, n).value == Key(f, p, salt, c, m).value[..n]
  {
    var l, l' := BlockCount(f, n), BlockCount(f, m);
    if l' < l { MulMono(l', l - 1, f.hlen); }
    BlocksPrefix(f, p, salt, c, l, l');
  }

  lemma {:induction false} BlocksPrefix(f: Prf, p: Octets, salt: Octets, c: nat, l: nat, l': nat)
    requires PrfOk(f) && c >= 1 && l <= l' && Blocks(f, p, salt, c, l').Some?
    ensures Blocks(f, p, salt, c, l).Some? && Blocks(f, p, salt, c, l).value <= Blocks(f, p, salt, c, l').value
    decreases l'
  {
    if l < l' { BlocksPrefix(f, p, salt, c, l, l' - 1); }
  }

  // ----- what these are, octet by octet and bit by bit

  /** The block index is four octets, the most significant first. */
  lemma BlockIndexIs(i: nat, a: nat, b: nat, c: nat, d: nat)
    requires a < 0x100 && b < 0x100 && c < 0x100 && d < 0x100
    requires i == 0x100_0000 * a + 0x1_0000 * b + 0x100 * c + d
    ensures BlockIndex(i) == [a as bv8, b as bv8, c as bv8, d as bv8]
  {
    hide Octet;
    FourDigits(i, a, b, c, d);
    OctetOf(i / 0x100_0000, a);
    OctetOf(i / 0x1_0000, b);
    OctetOf(i / 0x100, c);
    OctetOf(i, d);
  }

  lemma FourDigits(i: nat, a: nat, b: nat, c: nat, d: nat)
    requires a < 0x100 && b < 0x100 && c < 0x100 && d < 0x100
    requires i == 0x100_0000 * a + 0x1_0000 * b + 0x100 * c + d
    ensures i / 0x100_0000 % 0x100 == a && i / 0x1_0000 % 0x100 == b && i / 0x100 % 0x100 == c && i % 0x100 == d
  {
    assert i / 0x100 == 0x1_0000 * a + 0x100 * b + c;
    assert i / 0x1_0000 == 0x100 * a + b;
    assert i / 0x100_0000 == a;
  }

  lemma OctetOf(x: nat, y: nat)
    requires y < 0x100 && x % 0x100 == y
    ensures Octet(x) == y as bv8
  {
  }

  /** The chain: the first use is on salt and block index, every other on the result before it. */
  lemma ChainIs(f: Prf, p: Octets, salt: Octets, i: nat, j: nat)
    requires j >= 1
    ensures U(f, p, salt, i, 1) == f.apply(p, salt + BlockIndex(i))
    ensures U(f, p, salt, i, j).None? ==> U(f, p, salt, i, j + 1).None?
    ensures U(f, p, salt, i, j).Some? ==> U(f, p, salt, i, j + 1) == f.apply(p, U(f, p, salt, i, j).value)
  {
  }

  /** How many of the first `c` results have the bit of `mask` in octet `k`. */
  ghost function BitCount(f: Prf, p: Octets, salt: Octets, i: nat, c: nat, k: nat, mask: bv8): nat
    requires PrfOk(f) && k < f.hlen
  {
    if c == 0 then 0
    else
      var u := U(f, p, salt, i, c);
      BitCount(f, p, salt, i, c - 1, k, mask) + if u.Some? && HasBit(u.value[k], mask) then 1 else 0
  }

  predicate HasBit(x: bv8, mask: bv8) {
    x & mask != 0
  }

  predicate OneBit(mask: bv8) {
    mask == 1 || mask == 2 || mask == 4 || mask == 8 || mask == 16 || mask == 32 || mask == 64 || mask == 128
  }

  lemma XorBit(x: bv8, y: bv8, mask: bv8)
    requires OneBit(mask)
    ensures HasBit(x ^ y, mask) <==> HasBit(x, mask) != HasBit(y, mask)
  {
  }

  lemma ULength(f: Prf, p: Octets, salt: Octets, i: nat, j: nat)
    requires PrfOk(f) && j >= 1
    ensures U(f, p, salt, i, j).Some? ==> |U(f, p, salt, i, j).value| == f.hlen
  {
  }

  lemma TStep(f: Prf, p: Octets, salt: Octets, c: nat, i: nat, k: nat)
    requires PrfOk(f) && c >= 1 && k < f.hlen && T(f, p, salt, c, i).Some?
    ensures |T(f, p, salt, c, i).value| == f.hlen
    ensures U(f, p, salt, i, c).Some? && |U(f, p, salt, i, c).value| == f.hlen
    ensures c == 1 ==> T(f, p, salt, c, i) == U(f, p, salt, i, 1)
    ensures c > 1 ==>
        T(f, p, salt, c - 1, i).Some? && |T(f, p, salt, c - 1, i).value| == f.hlen
        && T(f, p, salt, c, i).value[k] == T(f, p, salt, c - 1, i).value[k] ^ U(f, p, salt, i, c).value[k]
  {
    hide U;
    ULength(f, p, salt, i, c);
  }

  lemma CountStep(f: Prf, p: Octets, salt: Octets, i: nat, c: nat, k: nat, mask: bv8)
    requires PrfOk(f) && c >= 1 && k < f.hlen && U(f, p, salt, i, c).Some? && |U(f, p, salt, i, c).value| == f.hlen
    ensures BitCount(f, p, salt, i, c, k, mask) ==
        (if c == 1 then 0 else BitCount(f, p, salt, i, c - 1, k, mask))
            + (if HasBit(U(f, p, salt, i, c).value[k], mask) then 1 else 0)
  {
    hide U, HasBit;
    if c == 1 {
      assert BitCount(f, p, salt, i, 0, k, mask) == 0;
    }
  }

  /** A bit of T_i is set exactly when it is set in an odd number of the c results of the chain. */
  lemma {:induction false} BlockBits(f: Prf, p: Octets, salt: Octets, c: nat, i: nat, k: nat, mask: bv8)
    requires PrfOk(f) && c >= 1 && k < f.hlen && OneBit(mask) && T(f, p, salt, c, i).Some?
    ensures |T(f, p, salt, c, i).value| == f.hlen
    ensures HasBit(T(f, p, salt, c, i).value[k], mask) <==> BitCount(f, p, salt, i, c, k, mask) % 2 == 1
    decreases c
  {
    hide U, T, HasBit, OneBit, PrfOk, Xor, BitCount;
    TStep(f, p, salt, c, i, k);
    CountStep(f, p, salt, i, c, k, mask);
    if c > 1 {
      BlockBits(f, p, salt, c - 1, i, k, mask);
      XorBit(T(f, p, salt, c - 1, i).value[k], U(f, p, salt, i, c).value[k], mask);
    }
  }

  /** Octet `m` of the key is octet m mod hlen of block m / hlen + 1. */
  lemma KeyAt(f: Prf, p: Octets, salt: Octets, c: nat, n: nat, i: nat, k: nat)
    requires PrfOk(f) && c >= 1 && n > 0 && k < f.hlen && 0 <= i * f.hlen + k < n && Key(f, p, salt, c, n).Some?
    ensures T(f, p, salt, c, i + 1).Some?
    ensures Key(f, p, salt, c, n).value[i * f.hlen + k] == T(f, p, salt, c, i + 1).value[k]
  {
    hide T;
    var l := BlockCount(f, n);
    if l <= i { MulMono(l, i, f.hlen); }
    BlocksAt(f, p, salt, c, l, i, k);
  }

  // ----- the code

  /** The size of the buffer for the inputs of the function, in 32-bit arithmetic. */
  function InputBuffer(saltLength: Word, h: Word): Word {
    var n := (saltLength + 4) % WORD;
    if n > h then n else h
  }

  /** The first input fits its buffer if and only if the salt is shorter than 2^32 - 4 bytes. */
  lemma SaltFits(saltLength: Word, h: Word)
    ensures saltLength + 4 <= InputBuffer(saltLength, h) <==> saltLength < 0xFFFF_FFFC
  {
  }

  /** `ceil` of a quotient. */
  function Ceiling(x: real): int {
    if x.Floor as real == x then x.Floor else x.Floor + 1
  }

  lemma CeilingAt(x: real, l: int)
    requires (l - 1) as real < x <= l as real
    ensures Ceiling(x) == l
  {
  }

  lemma QuotientBetween(n: int, h: int, l: int)
    requires h > 0 && (l - 1) * h < n <= l * h
    ensures (l - 1) as real < n as real / h as real <= l as real
  {
    var x := n as real / h as real;
    assert x * h as real == n as real;
    assert (l * h) as real == l as real * h as real;
    assert ((l - 1) * h) as real == (l - 1) as real * h as real;
    RealOrder(l as real, x, h as real);
    RealOrder(x, (l - 1) as real, h as real);
  }

  lemma RealOrder(x: real, y: real, h: real)
    requires h > 0.0
    ensures x < y ==> x * h < y * h
    ensures x <= y ==> x * h <= y * h
  {
    if x < y { assert (y - x) * h > 0.0; }
  }

  /** The rounded-up quotient of the code is the number of blocks, and the last block gives between
      1 and hlen octets. */
  lemma CeilingIsCount(f: Prf, n: nat)
    requires f.hlen > 0 && n > 0
    ensures Ceiling(n as real / f.hlen as real) == BlockCount(f, n)
    ensures 1 <= n - (BlockCount(f, n) - 1) * f.hlen <= f.hlen
  {
    var l := BlockCount(f, n);
    hide BlockCount, Ceiling;
    QuotientBetween(n, f.hlen, l);
    CeilingAt(n as real / f.hlen as real, l);
    assert l * f.hlen == (l - 1) * f.hlen + f.hlen;
  }

  /** memcpy into a buffer. */
  method CopyTo(dst: array<bv8>, at: nat, src: Octets)
    requires at + |src| <= dst.Length
    modifies dst
    ensures dst[..] == old(dst[..at]) + src + old(dst[at + |src|..])
  {
    for k := 0 to |src|
      invariant dst[..] == old(dst[..at]) + src[..k] + old(dst[at + k..])
    {
      dst[at + k] := src[k];
    }
  }

  /** `xor`. */
  method XorInto(t: array<bv8>, v: array<bv8>)
    requires t.Length == v.Length && t != v
    modifies t
    ensures t[..] == Xor(old(t[..]), v[..])
  {
    for k := 0 to t.Length
      invariant forall m :: 0 <= m < k ==> t[m] == old(t[m]) ^ v[m]
      invariant forall m :: k <= m < t.Length ==> t[m] == old(t[m])
    {
      t[k] := t[k] ^ v[k];
    }
    assert t[..] == Xor(old(t[..]), v[..]);
  }

  lemma XorZeros(s: Octets, z: Octets)
    requires |s| == |z| && forall k :: 0 <= k < |z| ==> z[k] == 0
    ensures Xor(z, s) == s
  {
  }

  /** hmac: the result replaces the contents of `v`. */
  method Hmac(f: Prf, p: Octets, text: Octets, v: array<bv8>) returns (ok: bool)
    requires PrfOk(f) && v.Length == f.hlen
    modifies v
    ensures ok == f.apply(p, text).Some?
    ensures ok ==> v[..] == f.apply(p, text).value
  {
    var r := f.apply(p, text);
    ok := r.Some?;
    if ok {
      CopyTo(v, 0, r.value);
    }
  }

  method Zero(t: array<bv8>)
    modifies t
    ensures forall k :: 0 <= k < t.Length ==> t[k] == 0
  {
    for k := 0 to t.Length
      invariant forall m :: 0 <= m < k ==> t[m] == 0
    {
      t[k] := 0;
    }
  }

  /** The inner loop: block `i` in `t`. With no iterations the block is all zeros. */
  method Block(f: Prf, p: Octets, salt: Octets, c: nat, i: nat, t: array<bv8>, v: array<bv8>, u: array<bv8>)
      returns (ok: bool)
    requires PrfOk(f) && t.Length == v.Length == f.hlen && u.Length >= |salt| + 4 && u.Length >= f.hlen
    requires t != v && v != u && t != u
    modifies t, v, u
    ensures ok ==> IsBlock(f, p, salt, c, i, t[..])
    ensures !ok ==> c >= 1 && T(f, p, salt, c, i).None?
  {
    Zero(t);
    for j := 0 to c
      invariant j == 0 ==> forall k :: 0 <= k < t.Length ==> t[k] == 0
      invariant j >= 1 ==> T(f, p, salt, j, i).Some? && t[..] == T(f, p, salt, j, i).value
      invariant j >= 1 ==> U(f, p, salt, i, j).Some? && v[..] == U(f, p, salt, i, j).value
    {
      var len;
      if j == 0 {
        CopyTo(u, 0, salt);
        CopyTo(u, |salt|, BlockIndex(i));
        len := |salt| + 4;
        assert u[..len] == salt + BlockIndex(i);
      } else {
        CopyTo(u, 0, v[..]);
        len := f.hlen;
        assert u[..len] == v[..];
      }
      assert Some(u[..len]) == Input(f, p, salt, i, j + 1);
      ok := Hmac(f, p, u[..len], v);
      if !ok {
        NoneStays(f, p, salt, j + 1, c, i);
        return;
      }
      ghost var was := t[..];
      XorInto(t, v);
      if j == 0 { XorZeros(v[..], was); }
    }
    ok := true;
  }

  lemma {:induction false} NoneStays(f: Prf, p: Octets, salt: Octets, j: nat, c: nat, i: nat)
    requires PrfOk(f) && 1 <= j <= c && U(f, p, salt, i, j).None?
    ensures T(f, p, salt, c, i).None?
  {
    if j < c { NoneStays(f, p, salt, j, c - 1, i); }
  }

  lemma {:induction false} NoBlock(f: Prf, p: Octets, salt: Octets, c: nat, i: nat, l: nat)
    requires PrfOk(f) && c >= 1 && 1 <= i <= l && T(f, p, salt, c, i).None?
    ensures Blocks(f, p, salt, c, l).None?
  {
    if i < l { NoBlock(f, p, salt, c, i, l - 1); }
  }

  datatype Outcome = Done | BadArguments | PrfFailed

  /** PBKDF2: the whole output buffer is the derived key, or an error is reported. */
  method Derive(f: Prf, p: Octets, salt: Octets, c: nat, dk: array<bv8>) returns (r: Outcome)
    requires PrfOk(f) && |salt| < 0xFFFF_FFFC && dk.Length < 0x1_0000_0000
    modifies dk
    ensures dk.Length == 0 <==> r == BadArguments
    ensures dk.Length > 0 && c >= 1 ==> (r == Done <==> f.keyed(p) && Key(f, p, salt, c, dk.Length).Some?)
    ensures r == Done && c >= 1 ==> dk.Length > 0 && Key(f, p, salt, c, dk.Length) == Some(dk[..])
    ensures dk.Length > 0 && c == 0 ==>
        (r == Done <==> f.keyed(p)) && (r == Done ==> forall k :: 0 <= k < dk.Length ==> dk[k] == 0)
  {
    if dk.Length == 0 {
      return BadArguments;
    }
    hide Filled, Ready, Key, T, BlockCount, Ceiling, Blocks, IsBlock, PrfOk;
    PrfLength(f);
    var h := f.hlen;
    var t, v := new bv8[h], new bv8[h];
    SaltFits(|salt|, h);
    var u := new bv8[InputBuffer(|salt|, h)];
    var l := Ceiling(dk.Length as real / h as real);
    CeilingIsCount(f, dk.Length);
    if !f.keyed(p) {
      return PrfFailed;
    }
    FilledNone(f, p, salt, c, dk[..]);
    var i := 1;
    while i <= l
      invariant 1 <= i <= l + 1
      invariant i <= l ==> Filled(f, p, salt, c, i - 1, dk[..])
      invariant i == l + 1 ==> Ready(f, p, salt, c, dk[..])
    {
      var ok := Block(f, p, salt, c, i, t, v, u);
      if !ok {
        NoKey(f, p, salt, c, i, dk.Length);
        return PrfFailed;
      }
      Emit(f, p, salt, c, i, l, t, dk);
      i := i + 1;
    }
    r := Done;
    ReadyIs(f, p, salt, c, dk[..]);
  }

  lemma PrfLength(f: Prf)
    requires PrfOk(f)
    ensures 2 <= f.hlen < 0x1_0000_0000
  {
  }

  /** Copies block `i` out, of the last one only what is still missing. */
  method Emit(f: Prf, p: Octets, salt: Octets, c: nat, i: nat, l: nat, t: array<bv8>, dk: array<bv8>)
    requires PrfOk(f) && dk.Length > 0 && l == BlockCount(f, dk.Length) && 1 <= i <= l && t != dk
    requires Filled(f, p, salt, c, i - 1, dk[..]) && IsBlock(f, p, salt, c, i, t[..]) && t.Length == f.hlen
    modifies dk
    ensures if i < l then Filled(f, p, salt, c, i, dk[..]) else Ready(f, p, salt, c, dk[..])
  {
    hide Filled, Ready, IsBlock, BlockCount;
    PrfLength(f);
    CeilingIsCount(f, dk.Length);
    ghost var was := dk[..];
    var at := (i - 1) * f.hlen;
    MulMono(0, i - 1, f.hlen);
    if i != l {
      BlockInside(i, l, f.hlen, dk.Length);
      CopyTo(dk, at, t[..]);
      FilledNext(f, p, salt, c, i - 1, was, t[..], dk[..]);
    } else {
      var rest := dk.Length - at;
      CopyTo(dk, at, t[..rest]);
      FilledLast(f, p, salt, c, i - 1, was, t[..], dk[..]);
    }
  }

  lemma BlockInside(i: nat, l: nat, h: nat, n: nat)
    requires 1 <= i < l && (l - 1) * h < n
    ensures 0 <= (i - 1) * h && (i - 1) * h + h <= n
  {
    MulMono(i, l - 1, h);
    MulMono(0, i - 1, h);
    assert i * h == (i - 1) * h + h;
  }

  /** What block `i` is: T_i, or zeros when there are no iterations. */
  ghost predicate IsBlock(f: Prf, p: Octets, salt: Octets, c: nat, i: nat, t: Octets)
    requires PrfOk(f)
  {
    && |t| == f.hlen
    && (c >= 1 ==> T(f, p, salt, c, i) == Some(t))
    && (c == 0 ==> forall k :: 0 <= k < |t| ==> t[k] == 0)
  }

  /** The first `l` blocks are in place. */
  ghost predicate Filled(f: Prf, p: Octets, salt: Octets, c: nat, l: nat, s: Octets)
    requires PrfOk(f)
  {
    && 0 <= l * f.hlen <= |s|
    && (c >= 1 ==> Blocks(f, p, salt, c, l) == Some(s[..l * f.hlen]))
    && (c == 0 ==> forall k :: 0 <= k < l * f.hlen ==> s[k] == 0)
  }

  /** The output is complete. */
  ghost predicate Ready(f: Prf, p: Octets, salt: Octets, c: nat, s: Octets)
    requires PrfOk(f)
  {
    && s != []
    && (c >= 1 ==> Key(f, p, salt, c, |s|) == Some(s))
    && (c == 0 ==> forall k :: 0 <= k < |s| ==> s[k] == 0)
  }

  lemma ReadyIs(f: Prf, p: Octets, salt: Octets, c: nat, s: Octets)
    requires PrfOk(f) && Ready(f, p, salt, c, s)
    ensures s != [] && (c >= 1 ==> Key(f, p, salt, c, |s|) == Some(s))
    ensures c == 0 ==> forall k :: 0 <= k < |s| ==> s[k] == 0
  {
  }

  lemma FilledNone(f: Prf, p: Octets, salt: Octets, c: nat, s: Octets)
    requires PrfOk(f)
    ensures Filled(f, p, salt, c, 0, s)
  {
  }

  lemma FilledNext(f: Prf, p: Octets, salt: Octets, c: nat, l: nat, s: Octets, t: Octets, s': Octets)
    requires PrfOk(f) && Filled(f, p, salt, c, l, s) && IsBlock(f, p, salt, c, l + 1, t)
    requires l * f.hlen + f.hlen <= |s| && s' == s[..l * f.hlen] + t + s[l * f.hlen + f.hlen..]
    ensures Filled(f, p, salt, c, l + 1, s')
  {
    hide T;
    assert (l + 1) * f.hlen == l * f.hlen + f.hlen;
    assert s'[..(l + 1) * f.hlen] == s[..l * f.hlen] + t;
  }

  lemma FilledLast(f: Prf, p: Octets, salt: Octets, c: nat, l: nat, s: Octets, t: Octets, s': Octets)
    requires PrfOk(f) && Filled(f, p, salt, c, l, s) && IsBlock(f, p, salt, c, l + 1, t)
    requires s != [] && BlockCount(f, |s|) == l + 1 && |s| - l * f.hlen <= f.hlen
    requires s' == s[..l * f.hlen] + t[..|s| - l * f.hlen]
    ensures Ready(f, p, salt, c, s')
  {
    hide T, BlockCount;
    assert (s[..l * f.hlen] + t)[..|s|] == s';
  }

  lemma NoKey(f: Prf, p: Octets, salt: Octets, c: nat, i: nat, n: nat)
    requires PrfOk(f) && c >= 1 && n > 0 && 1 <= i <= BlockCount(f, n) && T(f, p, salt, c, i).None?
    ensures Key(f, p, salt, c, n).None?
  {
    NoBlock(f, p, salt, c, i, BlockCount(f, n));
  }
}

/** Alignment by masking, as bitwise arithmetic on unsigned 32-bit values. */
module Alignment {
  import opened Basics

  /** Bitwise and of the `n` low bits. */
  function BitAnd(x: nat, y: nat, n: nat): nat {
    if n == 0 then 0 else (if x % 2 == 1 && y % 2 == 1 then 1 else 0) + 2 * BitAnd(x / 2, y / 2, n - 1)
  }

  function BitNot(x: Word): Word {
    WORD - 1 - x
  }

  /** The least multiple of `a` not below `x`. */
  function RoundUp(x: nat, a: nat): nat
    requires a > 0
  {
    (x + a - 1) / a * a
  }

  predicate PowerTo8(a: nat) {
    a == 1 || a == 2 || a == 4 || a == 8
  }

  lemma {:induction false} AndAll(x: nat, n: nat)
    requires x < Pow2(n)
    ensures Pow2(n) > 0 && BitAnd(x, Pow2(n) - 1, n) == x
  {
    if n > 0 {
      AndAll(x / 2, n - 1);
      assert (Pow2(n) - 1) / 2 == Pow2(n - 1) - 1;
    }
  }

  lemma {:induction false} AndNone(x: nat, n: nat)
    ensures BitAnd(x, 0, n) == 0
  {
    if n > 0 { AndNone(x / 2, n - 1); }
  }

  lemma {:induction false} AndBelow(x: nat, y: nat, n: nat)
    ensures BitAnd(x, y, n) < Pow2(n)
  {
    if n > 0 { AndBelow(x / 2, y / 2, n - 1); }
  }

  /** Clearing one low bit more. */
  lemma AndShift(x: nat, y: nat, n: nat)
    requires n > 0 && y % 2 == 0
    ensures BitAnd(x, y, n) == 2 * BitAnd(x / 2, y / 2, n - 1)
  {
  }

  lemma WordIs()
    ensures Pow2(32) == WORD && Pow2(31) == 0x8000_0000 && Pow2(30) == 0x4000_0000 && Pow2(29) == 0x2000_0000
  {
    assert Pow2(8) == 0x100;
    assert Pow2(16) == 0x1_0000;
    assert Pow2(24) == 0x100_0000;
  }

  /** `(x + a - 1) & ~(a - 1)` on unsigned ints. */
  function AlignMask(x: Word, a: Word): Word {
    AndBelow((x + a - 1) % WORD, BitNot((a - 1) % WORD), 32);
    WordIs();
    BitAnd((x + a - 1) % WORD, BitNot((a - 1) % WORD), 32)
  }

  lemma AndClears(x: Word, a: nat)
    requires PowerTo8(a)
    ensures BitAnd(x, WORD - a, 32) == x / a * a
  {
    hide BitAnd, Pow2;
    WordIs();
    if a == 1 {
      AndAll(x, 32);
    } else {
      AndShift(x, WORD - a, 32);
      if a == 2 {
        AndAll(x / 2, 31);
      } else {
        AndShift(x / 2, (WORD - a) / 2, 31);
        if a == 4 {
          AndAll(x / 4, 30);
        } else {
          AndShift(x / 4, (WORD - a) / 4, 30);
          AndAll(x / 8, 29);
        }
      }
    }
  }

  lemma QuotientBy(x: nat, a: nat)
    requires PowerTo8(a)
    ensures x / a * a <= x < x / a * a + a && x / a >= 0
    ensures x / a * a == x - x % a
  {
    if a == 2 {
      assert x == x / 2 * 2 + x % 2;
    } else if a == 4 {
      assert x == x / 4 * 4 + x % 4;
    } else if a == 8 {
      assert x == x / 8 * 8 + x % 8;
    }
  }

  lemma Multiple(q: nat, a: nat)
    requires PowerTo8(a)
    ensures q * a % a == 0
  {
    if a == 2 {
      assert q * 2 % 2 == 0;
    } else if a == 4 {
      assert q * 4 % 4 == 0;
    } else if a == 8 {
      assert q * 8 % 8 == 0;
    }
  }

  lemma RoundsUp(x: nat, a: nat)
    requires PowerTo8(a)
    ensures x <= RoundUp(x, a) < x + a && RoundUp(x, a) % a == 0
    ensures x % a == 0 ==> RoundUp(x, a) == x
  {
    QuotientBy(x + a - 1, a);
    Multiple((x + a - 1) / a, a);
    QuotientBy(x, a);
    if x % a == 0 { Between(x, RoundUp(x, a), a); }
  }

  /** Two multiples less than `a` apart are equal. */
  lemma Between(x: nat, y: nat, a: nat)
    requires PowerTo8(a) && x % a == 0 && y % a == 0 && x <= y < x + a
    ensures x == y
  {
    if a == 2 {
      assert x % 2 == 0 && y % 2 == 0;
    } else if a == 4 {
      assert x % 4 == 0 && y % 4 == 0;
    } else if a == 8 {
      assert x % 8 == 0 && y % 8 == 0;
    }
  }

  lemma RemainderWraps2(y: nat)
    ensures (y + WORD) % 2 == y % 2
  {
  }

  lemma RemainderWraps4(y: nat)
    ensures (y + WORD) % 4 == y % 4
  {
  }

  lemma RemainderWraps8(y: nat)
    ensures (y + WORD) % 8 == y % 8
  {
  }

  lemma RemainderWraps(y: nat, a: nat)
    requires PowerTo8(a) && WORD <= y
    ensures (y - WORD) % a == y % a
  {
    RemainderWraps2(y - WORD);
    RemainderWraps4(y - WORD);
    RemainderWraps8(y - WORD);
  }

  lemma ClearWraps(y: nat, a: nat)
    requires PowerTo8(a) && y < 2 * WORD
    ensures (y % WORD) / a * a == (y / a * a) % WORD
  {
    QuotientBy(y, a);
    QuotientBy(y % WORD, a);
    if y >= WORD {
      assert y % WORD == y - WORD;
      RemainderWraps(y, a);
    }
  }

  /** The mask form rounds up to a multiple of the alignment, modulo 2^32. */
  lemma MaskRoundsUp(x: Word, a: nat)
    requires PowerTo8(a)
    ensures AlignMask(x, a) == RoundUp(x, a) % WORD
    ensures x <= RoundUp(x, a) < x + a && RoundUp(x, a) % a == 0
    ensures x % a == 0 ==> RoundUp(x, a) == x
  {
    hide BitAnd, RoundUp;
    RoundsUp(x, a);
    AndClears((x + a - 1) % WORD, a);
    ClearWraps(x + a - 1, a);
    RoundUpIs(x, a);
  }

  lemma RoundUpIs(x: nat, a: nat)
    requires a > 0
    ensures RoundUp(x, a) == (x + a - 1) / a * a
  {
  }

  /** An alignment of 0, as a void field has, gives offset 0. */
  lemma MaskOfVoid(x: Word)
    ensures AlignMask(x, 0) == 0
  {
    AndNone((x - 1) % WORD, 32);
  }
}

/** Machine words, powers and products shared by all models. */
module Basics {
  datatype Option<T> = None | Some(value: T)

  type Byte = x: int | 0 <= x < 0x100
  type Word = x: int | 0 <= x < 0x1_0000_0000

  const WORD := 0x1_0000_0000

  function Pow2(n: nat): (r: nat)
    ensures r >= 1
  {
    if n == 0 then 1 else 2 * Pow2(n - 1)
  }

  lemma SmallPowers()
    ensures Pow2(1) == 2 && Pow2(2) == 4 && Pow2(3) == 8 && Pow2(4) == 16 && Pow2(5) == 32
  {
  }

  lemma MulMono(x: int, y: int, q: nat)
    requires x <= y
    ensures x * q <= y * q && q * x <= q * y
  {
    assert (y - x) * q >= 0;
  }

  /** A product the solver leaves alone until told otherwise. */
  function Times(x: nat, y: nat): nat {
    TimesNat(x, y);
    x * y
  }

  lemma TimesNat(x: nat, y: nat)
    ensures x * y >= 0 && (x > 0 ==> y <= x * y)
  {
    MulMono(0, x, y);
    if x > 0 { MulMono(1, x, y); }
  }
}

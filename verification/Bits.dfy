/** Powers of two, and exclusive-or on integers of any size and sign. */
module Bits {

  function Pow2(n: nat): (p: nat)
    ensures p >= 1
  {
    if n == 0 then 1 else 2 * Pow2(n - 1)
  }

  lemma {:induction false} Pow2Add(m: nat, n: nat)
    ensures Pow2(m + n) == Pow2(m) * Pow2(n)
  {
    if m != 0 {
      Pow2Add(m - 1, n);
      assert Pow2(m + n) == 2 * Pow2(m - 1 + n);
      assert 2 * (Pow2(m - 1) * Pow2(n)) == (2 * Pow2(m - 1)) * Pow2(n);
    }
  }

  lemma {:induction false} Pow2Monotone(m: nat, n: nat)
    requires m <= n
    ensures Pow2(m) <= Pow2(n)
  {
    Pow2Add(m, n - m);
    assert Pow2(m) * 1 <= Pow2(m) * Pow2(n - m);
  }

  lemma {:induction false} Pow2Values()
    ensures Pow2(7) == 128 && Pow2(8) == 0x100 && Pow2(16) == 0x1_0000
    ensures Pow2(32) == 0x1_0000_0000 && Pow2(64) == 0x1_0000_0000_0000_0000
    ensures Pow2(31) == 0x8000_0000 && Pow2(63) == 0x8000_0000_0000_0000
    ensures Pow2(70) == 128 * 0x8000_0000_0000_0000
  {
    hide Pow2;
    Pow2One();
    Pow2Add(1, 1);
    Pow2Add(1, 2);
    Pow2Add(2, 2);
    Pow2Add(3, 4);
    Pow2Add(4, 4);
    Pow2Add(8, 8);
    Pow2Add(16, 16);
    Pow2Add(1, 31);
    Pow2Add(32, 32);
    Pow2Add(1, 63);
    Pow2Add(7, 63);
  }

  lemma {:induction false} Pow2One()
    ensures Pow2(1) == 2
  {
    assert Pow2(0) == 1;
  }

  /** The distance of a number from the two that stay put when halved. */
  function Magnitude(a: int): nat { if a < 0 then -a - 1 else a }

  /** Exclusive-or of two integers in two's complement, as Python defines it:
      negative numbers carry an endless run of ones. */
  function Xor(a: int, b: int): int
    decreases Magnitude(a) + Magnitude(b)
  {
    if Magnitude(a) == 0 && Magnitude(b) == 0 then (if a == b then 0 else -1)
    else (if a % 2 == b % 2 then 0 else 1) + 2 * Xor(a / 2, b / 2)
  }

  lemma {:induction false} XorZero(a: int)
    ensures Xor(a, 0) == a
    decreases Magnitude(a)
  {
    if Magnitude(a) != 0 { XorZero(a / 2); }
  }

  lemma {:induction false} XorOnes(a: int)
    ensures Xor(a, -1) == -a - 1
    decreases Magnitude(a)
  {
    if Magnitude(a) != 0 { XorOnes(a / 2); }
  }
}

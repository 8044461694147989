/** 64-bit word arithmetic, powers of two, and the flat word store. */
module Words {

  const WORD: int := 0x1_0000_0000_0000_0000

  /** The terminator of strings. */
  const NUL: char := '\0'

  function Min(a: int, b: int): int { if a <= b then a else b }

  function Max(a: int, b: int): int { if a <= b then b else a }

  /** Unsigned 64-bit subtraction, with wrap-around. */
  function Sub64(a: int, b: int): int {
    if a >= b then a - b else a - b + WORD
  }

  function Pow2(n: nat): (r: int)
    ensures r > 0
  {
    if n == 0 then 1 else 2 * Pow2(n - 1)
  }

  lemma {:induction false} Pow2Add(m: nat, n: nat)
    ensures Pow2(m + n) == Pow2(m) * Pow2(n)
  {
    if m == 0 {
    } else {
      Pow2Add(m - 1, n);
      assert Pow2(m) * Pow2(n) == 2 * (Pow2(m - 1) * Pow2(n));
    }
  }

  lemma {:induction false} Pow2Mono(m: nat, n: nat)
    requires m <= n
    ensures Pow2(m) <= Pow2(n)
    decreases n
  {
    if m < n {
      Pow2Mono(m, n - 1);
    }
  }

  lemma Pow2Values()
    ensures Pow2(7) == 128 && Pow2(8) == 256 && Pow2(14) == 0x4000 && Pow2(15) == 0x8000 && Pow2(16) == 0x1_0000
    ensures Pow2(22) == 0x40_0000 && Pow2(23) == 0x80_0000 && Pow2(24) == 0x100_0000
    ensures Pow2(63) == 0x8000_0000_0000_0000 && Pow2(64) == WORD
  {
    assert Pow2(8) == 256;
    assert Pow2(16) == 0x1_0000 by { Pow2Add(8, 8); }
    assert Pow2(7) == 128 && Pow2(6) == 64;
    assert Pow2(14) == 0x4000 by { Pow2Add(7, 7); }
    assert Pow2(15) == 0x8000;
    assert Pow2(22) == 0x40_0000 by { Pow2Add(8, 14); }
    assert Pow2(32) == 0x1_0000_0000 by { Pow2Add(16, 16); }
    assert Pow2(64) == WORD by { Pow2Add(32, 32); }
  }

  lemma QuotientUnique(a: int, q: int, s: int, n: int)
    requires a > 0 && 0 <= s < a && n == a * q + s
    ensures n / a == q
  {
    var d := n / a - q;
    assert a * d == s - n % a;
  }

  /** The word store: addresses are byte addresses, words never written read as zero. */
  type Mem = map<int, int>

  function Rd(m: Mem, a: int): int {
    if a in m then m[a] else 0
  }
}

/** The power-of-two arithmetic of internal_memalign. */
module Align {
  import opened Words
  import opened BinMap

  ghost predicate IsPow2(a: nat) { exists k: nat :: Pow2(k) == a }

  /** (a & (a - 1)) == 0 holds just of powers of two. */
  lemma {:induction false} PowerTest(a: nat)
    requires a > 0
    ensures And(a, a - 1) == 0 <==> IsPow2(a)
  {
    if a == 1 {
      assert Pow2(0) == 1;
    } else if a % 2 == 0 {
      PowerTest(a / 2);
      assert And(a, a - 1) == 2 * And(a / 2, a / 2 - 1);
      if k: nat :| Pow2(k) == a / 2 { assert Pow2(k + 1) == a; }
      if k: nat :| Pow2(k) == a { assert Pow2(k - 1) == a / 2; }
    } else {
      AndSelf(a / 2);
      assert And(a, a - 1) == 2 * And(a / 2, a / 2) + 0;
      forall k: nat ensures Pow2(k) != a { if k > 0 { assert Pow2(k) == 2 * Pow2(k - 1); } }
    }
  }

  lemma {:induction false} AndSelf(a: nat)
    ensures And(a, a) == a
  {
    if a > 0 { AndSelf(a / 2); }
  }

  /** x is a multiple of a. */
  ghost predicate Multiple(x: int, a: int) { exists q :: x == q * a }

  /** x & (2^k - 1) is what x has beyond a multiple of 2^k. */
  lemma {:induction false} LowMask(x: nat, k: nat)
    ensures And(x, Pow2(k) - 1) + Shr(x, k) * Pow2(k) == x && And(x, Pow2(k) - 1) < Pow2(k)
    decreases k
  {
    hide And, Pow2, Shr;
    Halves(x, k);
    if k == 0 {
      AndNone(x);
    } else {
      LowMask(x / 2, k - 1);
      var p := Pow2(k - 1);
      LowStep(x, p);
      DoubleProduct(Shr(x, k), p);
    }
  }

  lemma AndNone(x: nat)
    ensures And(x, 0) == 0
  {
  }

  lemma LowStep(x: nat, p: nat)
    requires p > 0
    ensures And(x, 2 * p - 1) == 2 * And(x / 2, p - 1) + x % 2
  {
    if x > 0 { assert (2 * p - 1) / 2 == p - 1; }
  }

  lemma DoubleProduct(q: int, p: int)
    ensures q * (2 * p) == 2 * (q * p)
  {
  }

  /** x & -(2^k), in n bits, rounds down to a multiple of 2^k. */
  lemma {:induction false} HighMask(x: nat, k: nat, n: nat)
    requires k <= n && x < Pow2(n)
    ensures Pow2(k) <= Pow2(n) && And(x, Pow2(n) - Pow2(k)) == Shr(x, k) * Pow2(k)
    decreases k
  {
    hide And, Pow2, Shr;
    Pow2Mono(k, n);
    Halves(x, k);
    if k == 0 {
      LowMask(x, n);
      NoQuotient(x, Shr(x, n), Pow2(n));
    } else {
      Halves(x, n);
      HighMask(x / 2, k - 1, n - 1);
      DoubleMask(x, Pow2(n - 1) - Pow2(k - 1));
      DoubleProduct(Shr(x, k), Pow2(k - 1));
    }
  }

  lemma Halves(x: nat, k: nat)
    ensures k == 0 ==> Pow2(k) == 1 && Shr(x, k) == x
    ensures k > 0 ==> Pow2(k) == 2 * Pow2(k - 1) && Shr(x, k) == Shr(x / 2, k - 1)
  {
  }

  lemma NoQuotient(x: nat, q: nat, d: nat)
    requires q * d <= x < d
    ensures q * d == 0
  {
  }

  lemma DoubleMask(x: nat, d: nat)
    ensures And(x, 2 * d) == 2 * And(x / 2, d)
  {
    if x > 0 && d > 0 { assert 2 * d / 2 == d; }
  }

  // ---- rounding an alignment up to a power of two ----

  const MIN_ALIGN: int := 32
  const HALF: int := 0x8000_0000_0000_0000

  /** a << 1 in 64 bits */
  function Shl64(a: nat): nat { if a < HALF then 2 * a else if a < WORD then 2 * a - WORD else 0 }

  /** The value of the loop variable after n rounds of a <<= 1. */
  function Doubled(n: nat): nat { if n == 0 then MIN_ALIGN else Shl64(Doubled(n - 1)) }

  lemma {:induction false} DoubledValue(n: nat)
    ensures Doubled(n) == if n <= 58 then Pow2(n + 5) else 0
  {
    assert n > 0 ==> Doubled(n) == Shl64(Doubled(n - 1));
    if n == 0 {
      assert Pow2(5) == 32;
    } else {
      DoubledValue(n - 1);
      hide Pow2, Doubled;
      Pow2Values();
      Halves(0, n + 5);
      Halves(0, 64);
      if n <= 58 { Pow2Mono(n + 4, 62); }
      Halves(0, 63);
    }
  }

  /**
    The rounding loop comes to an end just for alignments up to 2^63: beyond, its variable becomes zero and stays zero.
   */
  lemma RoundingEnds(alignment: nat)
    requires alignment > 0
    ensures (exists n: nat :: Doubled(n) >= alignment) <==> alignment <= HALF
  {
    Pow2Values();
    if alignment <= HALF {
      DoubledValue(58);
      assert Doubled(58) >= alignment;
    } else {
      forall n: nat ensures Doubled(n) < alignment {
        DoubledValue(n);
        if n <= 58 { Pow2Mono(n + 5, 63); }
      }
    }
  }

  /** At 2^63 + 1 the loop goes on for ever. */
  lemma RoundingStuck()
    ensures forall n: nat :: Doubled(n) < HALF + 1
  {
    forall n: nat ensures Doubled(n) < HALF + 1 {
      if Doubled(n) >= HALF + 1 { RoundingEnds(HALF + 1); }
    }
  }

  /** The exponent of the least power of two from 2^k up that is at least the given alignment. */
  ghost function PowerFrom(k: nat, alignment: nat): nat
    requires k <= 63
    decreases 63 - k
  {
    if Pow2(k) >= alignment || k == 63 then k else PowerFrom(k + 1, alignment)
  }

  /** The alignment memalign works with. */
  ghost function Rounded(alignment: nat): nat { Pow2(PowerFrom(5, alignment)) }

  lemma {:induction false} PowerFromIs(i: nat, k: nat, alignment: nat)
    requires i <= k <= 63 && Pow2(k) >= alignment && (k > i ==> Pow2(k - 1) < alignment)
    ensures PowerFrom(i, alignment) == k
    decreases k - i
  {
    if i < k {
      Pow2Mono(i, k - 1);
      PowerFromIs(i + 1, k, alignment);
    }
  }

  /** The least power of two that is at least 32 and at least the given alignment. */
  method RoundAlignment(alignment: nat) returns (al: nat, ghost k: nat)
    requires alignment <= HALF
    ensures al == Pow2(k) && 5 <= k <= 63 && alignment <= al
    ensures forall j: nat :: alignment <= Pow2(j) && j >= 5 ==> k <= j
    ensures al == Rounded(alignment)
  {
    hide And;
    Pow2Values();
    assert Pow2(5) == 32;
    al := if alignment < MIN_ALIGN then MIN_ALIGN else alignment;
    PowerTest(al);
    if And(al, al - 1) != 0 {
      var a := MIN_ALIGN;
      k := 5;
      while a < al
        invariant a == Pow2(k) && 5 <= k <= 63 && (k > 5 ==> Pow2(k - 1) < al)
        decreases 63 - k
      {
        if k == 63 { assert false; }
        Pow2Mono(k + 1, 63);
        a := Shl64(a);
        k := k + 1;
      }
      al := a;
    } else {
      k :| Pow2(k) == al;
      if k > 63 { Pow2Mono(64, k); }
      if k < 5 { Pow2Mono(k, 4); }
      if k > 5 && alignment < MIN_ALIGN { Pow2Mono(6, k); }
    }
    assert k > 5 ==> Pow2(k - 1) < alignment;
    PowerFromIs(5, k, alignment);
    forall j: nat | alignment <= Pow2(j) && j >= 5 ensures k <= j {
      if j < k { Pow2Mono(j, k - 1); }
    }
  }

  /** A multiple of 2^k is a multiple of every smaller power of two. */
  lemma SmallerPower(x: int, j: nat, k: nat)
    requires j <= k && Multiple(x, Pow2(k))
    ensures Multiple(x, Pow2(j))
  {
    hide Pow2;
    var q :| x == q * Pow2(k);
    Pow2Add(k - j, j);
    Assoc(q, Pow2(k - j), Pow2(j));
  }

  lemma Assoc(a: int, b: int, c: int)
    ensures a * (b * c) == (a * b) * c
  {
  }

  lemma Aligned16(x: int, k: nat)
    requires k >= 4 && Multiple(x, Pow2(k))
    ensures x % 16 == 0
  {
    SmallerPower(x, 4, k);
    assert Pow2(4) == 16;
    var q :| x == q * Pow2(4);
  }

  /** The test and the arithmetic that find the aligned spot at or after x. */
  lemma AlignedSpot(x: nat, k: nat)
    requires k <= 63 && x + Pow2(k) <= WORD
    ensures And(x, Pow2(k) - 1) == 0 ==> Multiple(x, Pow2(k))
    ensures Pow2(k) <= WORD
    ensures var r := And(x + Pow2(k) - 1, WORD - Pow2(k)); x <= r < x + Pow2(k) && Multiple(r, Pow2(k))
  {
    hide And, Pow2, Shr;
    Pow2Values();
    Pow2Mono(k, 64);
    LowMask(x, k);
    var y := x + Pow2(k) - 1;
    LowMask(y, k);
    HighMask(y, k, 64);
    assert Multiple(Shr(y, k) * Pow2(k), Pow2(k));
    assert Multiple(Shr(x, k) * Pow2(k), Pow2(k));
  }
}

/**
  The 32-bit bin maps and the bit tricks that search them. A map is a natural number below 2^32 and
  the bitwise operators are given by their binary digits.
 */
module BinMap {
  import opened Words

  const MAP: int := 0x1_0000_0000

  /** Binary digit i. */
  predicate Bit(m: nat, i: nat)
    decreases i
  {
    if i == 0 then m % 2 == 1 else Bit(m / 2, i - 1)
  }

  /** x & y */
  function And(x: nat, y: nat): (r: nat)
    ensures r <= x && r <= y
  {
    if x == 0 || y == 0 then 0 else 2 * And(x / 2, y / 2) + (if x % 2 == 1 && y % 2 == 1 then 1 else 0)
  }

  /** x | y */
  function Or(x: nat, y: nat): (r: nat)
    ensures x <= r && y <= r
  {
    if x == 0 then y else 2 * Or(x / 2, y / 2) + (if x % 2 == 1 || y % 2 == 1 then 1 else 0)
  }

  /** 1 << i */
  function Idx2Bit(i: nat): nat { Pow2(i) }

  function Mark(m: nat, i: nat): nat { Or(m, Idx2Bit(i)) }

  function Clear(m: nat, i: nat): nat
    requires i < 32
  {
    Pow2Mono(i, 31);
    Pow2At31();
    And(m, MAP - 1 - Idx2Bit(i))
  }

  /** -x in 32 bits */
  function Neg(x: nat): nat { (MAP - x % MAP) % MAP }

  function LeastBit(x: nat): nat { And(x, Neg(x)) }

  function LeftBits(x: nat): nat {
    var y := (2 * x) % MAP;
    Or(y, Neg(y))
  }

  /** x >> i */
  function Shr(x: nat, i: nat): nat
    decreases i
  {
    if i == 0 then x else Shr(x / 2, i - 1)
  }

  /** x << i in 32 bits */
  function Shl(x: nat, i: nat): nat { (x * Pow2(i)) % MAP }

  /** ~x in 32 bits */
  function Not(x: nat): nat
    requires x < MAP
  {
    MAP - 1 - x
  }

  /** Count of trailing zeros. */
  function Bit2Idx(x: nat): nat
    requires x > 0
  {
    if x % 2 == 1 then 0 else Bit2Idx(x / 2) + 1
  }

  lemma Pow2At31()
    ensures Pow2(31) == 0x8000_0000 && Pow2(32) == MAP
  {
    Pow2Values();
    Pow2Add(16, 15);
  }

  lemma {:induction false} AndBit(x: nat, y: nat, i: nat)
    ensures Bit(And(x, y), i) <==> Bit(x, i) && Bit(y, i)
  {
    if x == 0 || y == 0 {
      NoBits(0, i);
    } else if i > 0 {
      AndBit(x / 2, y / 2, i - 1);
    }
  }

  lemma {:induction false} OrBit(x: nat, y: nat, i: nat)
    ensures Bit(Or(x, y), i) <==> Bit(x, i) || Bit(y, i)
    decreases i
  {
    if x == 0 {
      NoBits(0, i);
    } else if i > 0 {
      OrBit(x / 2, y / 2, i - 1);
    }
  }

  lemma {:induction false} OrBound(x: nat, y: nat, n: nat)
    requires x < Pow2(n) && y < Pow2(n)
    ensures Or(x, y) < Pow2(n)
    decreases n
  {
    if x != 0 && n > 0 {
      OrBound(x / 2, y / 2, n - 1);
    }
  }

  /** Digits beyond the magnitude are clear. */
  lemma {:induction false} NoBits(x: nat, i: nat)
    requires x < Pow2(i)
    ensures !Bit(x, i)
    decreases i
  {
    if i > 0 { NoBits(x / 2, i - 1); }
  }

  /** A number all of whose digits are clear is zero. */
  lemma {:induction false} ZeroBits(x: nat, n: nat)
    requires x < Pow2(n)
    requires forall i: nat :: i < n ==> !Bit(x, i)
    ensures x == 0
    decreases n
  {
    if n > 0 {
      assert !Bit(x, 0);
      forall i: nat | i < n - 1 ensures !Bit(x / 2, i) { assert !Bit(x, i + 1); }
      ZeroBits(x / 2, n - 1);
    }
  }

  lemma {:induction false} PowBit(i: nat, j: nat)
    ensures Bit(Pow2(i), j) <==> i == j
  {
    if i > 0 && j > 0 {
      PowBit(i - 1, j - 1);
    } else if j > 0 {
      NoBits(0, j - 1);
    }
  }

  /** The digits of 2^n - 1 - x are those of x inverted. */
  lemma {:induction false} NotBit(x: nat, n: nat, i: nat)
    requires x < Pow2(n) && i < n
    ensures Bit(Pow2(n) - 1 - x, i) <==> !Bit(x, i)
    decreases i
  {
    if i > 0 {
      NotBit(x / 2, n - 1, i - 1);
      assert (Pow2(n) - 1 - x) / 2 == Pow2(n - 1) - 1 - x / 2;
    }
  }

  /** 2^n - 2^k has exactly the digits from k up. */
  lemma {:induction false} HighBits(k: nat, n: nat, j: nat)
    requires k <= n && j < n
    ensures Pow2(k) <= Pow2(n)
    ensures Bit(Pow2(n) - Pow2(k), j) <==> k <= j
    decreases k
  {
    Pow2Mono(k, n);
    if k == 0 {
      NotBit(0, n, j);
      NoBitsOfZero(j);
    } else if j > 0 {
      HighBits(k - 1, n - 1, j - 1);
    }
  }

  lemma NoBitsOfZero(j: nat)
    ensures !Bit(0, j)
  {
    NoBits(0, j);
  }

  // ---- the map operations ----

  lemma MarkBit(m: nat, i: nat)
    requires m < MAP && i < 32
    ensures Mark(m, i) < MAP && Mark(m, i) != 0
    ensures forall j: nat :: Bit(Mark(m, i), j) <==> i == j || Bit(m, j)
  {
    Pow2At31();
    Pow2Mono(i, 31);
    OrBound(m, Pow2(i), 32);
    forall j: nat ensures Bit(Mark(m, i), j) <==> i == j || Bit(m, j) {
      OrBit(m, Pow2(i), j);
      PowBit(i, j);
    }
  }

  /** The test `map & idx2bit(i)`. */
  lemma MarkedIff(m: nat, i: nat)
    ensures And(m, Idx2Bit(i)) != 0 <==> Bit(m, i)
  {
    AndBit(m, Pow2(i), i);
    PowBit(i, i);
    if !Bit(m, i) {
      Pow2Mono(i, i + 1);
      forall j: nat | j < i + 1 ensures !Bit(And(m, Pow2(i)), j) {
        AndBit(m, Pow2(i), j);
        PowBit(i, j);
      }
      ZeroBits(And(m, Pow2(i)), i + 1);
    } else {
      NoBitsOfZero(i);
    }
  }

  lemma ClearBit(m: nat, i: nat)
    requires m < MAP && i < 32
    ensures Clear(m, i) < MAP
    ensures forall j: nat :: j < 32 ==> (Bit(Clear(m, i), j) <==> i != j && Bit(m, j))
  {
    Pow2At31();
    Pow2Mono(i, 31);
    forall j: nat | j < 32 ensures Bit(Clear(m, i), j) <==> i != j && Bit(m, j) {
      AndBit(m, MAP - 1 - Pow2(i), j);
      NotBit(Pow2(i), 32, j);
      PowBit(i, j);
    }
  }

  lemma LeftBitsValue(i: nat)
    requires i < 32
    ensures i < 31 ==> Pow2(i + 1) < MAP && LeftBits(Pow2(i)) == Or(Pow2(i + 1), MAP - Pow2(i + 1))
    ensures i == 31 ==> LeftBits(Pow2(i)) == 0
  {
    Pow2At31();
    if i < 31 {
      Pow2Mono(i + 1, 31);
      LeftBitsAt(Pow2(i));
    } else {
      assert (2 * Pow2(i)) % MAP == 0;
    }
  }

  lemma LeftBitsAt(x: nat)
    requires 0 < 2 * x < MAP
    ensures LeftBits(x) == Or(2 * x, MAP - 2 * x)
  {
    var y := (2 * x) % MAP;
    assert y == 2 * x;
    assert Neg(y) == MAP - y;
  }

  /** left_bits(idx2bit(i)) & m keeps exactly the digits of m above i. */
  lemma LeftBitsOf(m: nat, i: nat, j: nat)
    requires i < 32 && j < 32
    ensures Bit(And(LeftBits(Idx2Bit(i)), m), j) <==> i < j && Bit(m, j)
  {
    AndBit(LeftBits(Pow2(i)), m, j);
    LeftBitsValue(i);
    if i == 31 {
      NoBits(0, j);
    } else {
      OrBit(Pow2(i + 1), MAP - Pow2(i + 1), j);
      PowBit(i + 1, j);
      Pow2At31();
      HighBits(i + 1, 32, j);
    }
  }

  /** The isolated least digit of x, found by counting trailing zeros, is the lowest index set in x. */
  lemma LeastIndex(x: nat)
    requires 0 < x < MAP
    ensures LeastBit(x) > 0
    ensures var i := Bit2Idx(LeastBit(x)); i < 32 && Bit(x, i) && forall j: nat :: j < i ==> !Bit(x, j)
  {
    assert Neg(x) == MAP - x;
    Pow2At31();
    LeastDigit(x, 32);
  }

  /** i is the lowest digit of x. */
  ghost predicate IsLowest(x: nat, i: nat) { Bit(x, i) && forall j: nat :: j < i ==> !Bit(x, j) }

  lemma {:induction false} LeastDigit(x: nat, n: nat)
    requires 0 < x < Pow2(n)
    ensures And(x, Pow2(n) - x) > 0
    ensures var i := Bit2Idx(And(x, Pow2(n) - x)); i < n && IsLowest(x, i)
    decreases n
  {
    hide And, Bit2Idx, IsLowest;
    var y, p := Pow2(n) - x, Pow2(n - 1);
    if x % 2 == 0 {
      Halves(x, y, p);
      LeastDigit(x / 2, n - 1);
      LowestEven(x, y);
    } else {
      OddToo(x, y, p);
      LowestOdd(x, y);
    }
  }

  lemma LowestEven(x: nat, y: nat)
    requires x > 0 && y > 0 && x % 2 == 0 && y % 2 == 0 && And(x / 2, y / 2) > 0
    requires IsLowest(x / 2, Bit2Idx(And(x / 2, y / 2)))
    ensures And(x, y) > 0 && Bit2Idx(And(x, y)) == Bit2Idx(And(x / 2, y / 2)) + 1 && IsLowest(x, Bit2Idx(And(x, y)))
  {
    hide And, Bit2Idx, IsLowest;
    var a := And(x / 2, y / 2);
    AndEven(x, y);
    Bit2IdxTwice(a, And(x, y));
    LowestTwice(x, Bit2Idx(a));
  }

  lemma AndEven(x: nat, y: nat)
    requires x > 0 && y > 0 && x % 2 == 0 && y % 2 == 0
    ensures And(x, y) == 2 * And(x / 2, y / 2)
  {
  }

  lemma Bit2IdxTwice(a: nat, c: nat)
    requires a > 0 && c == 2 * a
    ensures Bit2Idx(c) == Bit2Idx(a) + 1
  {
    assert c % 2 == 0 && c / 2 == a;
  }

  lemma LowestTwice(x: nat, i: nat)
    requires x % 2 == 0 && IsLowest(x / 2, i)
    ensures IsLowest(x, i + 1)
  {
    hide Bit;
    BitAbove(x, i);
    forall j: nat | j < i + 1 ensures !Bit(x, j) {
      if j > 0 { BitAbove(x, j - 1); } else { LastBit(x); }
    }
  }

  lemma BitAbove(x: nat, i: nat)
    ensures Bit(x, i + 1) <==> Bit(x / 2, i)
  {
  }

  lemma LastBit(x: nat)
    ensures Bit(x, 0) <==> x % 2 == 1
  {
  }

  lemma LowestOdd(x: nat, y: nat)
    requires x % 2 == 1 && y % 2 == 1
    ensures And(x, y) > 0 && Bit2Idx(And(x, y)) == 0 && IsLowest(x, 0)
  {
  }

  lemma OddToo(x: nat, y: nat, p: nat)
    requires x % 2 == 1 && x + y == 2 * p
    ensures y % 2 == 1
  {
  }

  lemma Halves(x: nat, y: nat, p: nat)
    requires x % 2 == 0 && x + y == 2 * p
    ensures y / 2 == p - x / 2 && y % 2 == 0
  {
  }

  lemma {:induction false} ShrBit(x: nat, i: nat, j: nat)
    ensures Bit(Shr(x, i), j) <==> Bit(x, i + j)
    ensures Shr(x, i) * Pow2(i) <= x
    decreases i
  {
    if i > 0 {
      ShrBit(x / 2, i - 1, j);
      Doubled(x, Shr(x / 2, i - 1), Pow2(i - 1));
    }
  }

  lemma Doubled(x: nat, a: nat, p: nat)
    requires a * p <= x / 2
    ensures a * (2 * p) <= x
  {
    assert a * (2 * p) == 2 * (a * p);
  }

  lemma {:induction false} ShlBit(x: nat, i: nat, j: nat)
    ensures Bit(x * Pow2(i), i + j) <==> Bit(x, j)
  {
    if i > 0 {
      ShlBit(x, i - 1, j);
      assert x * Pow2(i) == 2 * (x * Pow2(i - 1));
    } else {
      assert x * Pow2(0) == x;
    }
  }

  /** smallmap >> i << i keeps the digits from i up. */
  lemma Truncated(m: nat, i: nat, j: nat)
    requires m < MAP && i <= j < 32
    ensures Shl(Shr(m, i), i) <= m
    ensures Bit(Shl(Shr(m, i), i), j) <==> Bit(m, j)
  {
    hide Bit, Shr, Pow2;
    ShlBit(Shr(m, i), i, j - i);
    ShrBit(m, i, j - i);
    var v := Shr(m, i) * Pow2(i);
    assert 0 <= v < MAP;
    assert v % MAP == v;
  }

  /** The test for a bin of exactly the right size, or the next. */
  lemma LowTwo(x: nat)
    ensures And(x, 3) != 0 <==> Bit(x, 0) || Bit(x, 1)
    ensures And(x, 1) == x % 2
  {
    assert And(x, 3) == if x == 0 then 0 else 2 * And(x / 2, 1) + x % 2;
    assert And(x / 2, 1) == (x / 2) % 2 by { AndOne(x / 2); }
    AndOne(x);
    assert Bit(x, 1) == Bit(x / 2, 0);
  }

  lemma AndOne(x: nat)
    ensures And(x, 1) == x % 2
  {
    if x > 0 { assert And(x / 2, 0) == 0; }
  }
}

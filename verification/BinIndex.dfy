/** Size classes: which tree bin a chunk size belongs to, and the size bits that steer a trie descent. */
module BinIndex {
  import opened Words

  const TREEBINS: nat := 32

  /** Position of the highest set bit: 31 - clz(x). */
  function Log2(x: nat): (k: nat)
    requires x > 0
    ensures Pow2(k) <= x < Pow2(k + 1)
  {
    if x == 1 then 0 else Log2(x / 2) + 1
  }

  /** compute_tree_index: the shifted size is held in a 32-bit variable. */
  function TreeIndex(s: nat): nat {
    var x := (s / 256) % 0x1_0000_0000;
    if x == 0 then 0
    else if x > 0xFFFF then TREEBINS - 1
    else
      var k := Log2(x);
      2 * k + (s / Pow2(k + 7)) % 2
  }

  function MinSize(i: nat): int {
    Pow2(i / 2 + 8) + (if i % 2 == 1 then Pow2(i / 2 + 7) else 0)
  }

  function LeftShift(i: nat): nat
    requires i < TREEBINS
  {
    if i == TREEBINS - 1 then 0 else 63 - (i / 2 + 6)
  }

  /** Sizes kept in bin i: [MinSize(i), MinSize(i + 1)), and everything from MinSize(31) up in the last. */
  predicate InBin(i: nat, s: nat) {
    i < TREEBINS && MinSize(i) <= s && (i < TREEBINS - 1 ==> s < MinSize(i + 1))
  }

  /** The trie of bin i covers [Lo(i), Lo(i) + 2^Width(i)). */
  function Lo(i: nat): int { if i == TREEBINS - 1 then 0 else MinSize(i) }
  function Width(i: nat): nat
    requires i < TREEBINS
  {
    if i == TREEBINS - 1 then 64 else i / 2 + 7
  }

  lemma MinSizeStep(i: nat)
    ensures MinSize(i + 1) == MinSize(i) + Pow2(i / 2 + 7)
  {
    if i % 2 == 0 {
      assert (i + 1) / 2 == i / 2;
    } else {
      assert (i + 1) / 2 == i / 2 + 1;
    }
  }

  lemma {:induction false} MinSizeMono(i: nat, j: nat)
    requires i <= j
    ensures MinSize(i) <= MinSize(j)
    decreases j
  {
    if i < j {
      MinSizeMono(i, j - 1);
      MinSizeStep(j - 1);
    }
  }

  /** Bins are ordered: a size of a lower bin is smaller than every size of a higher one. */
  lemma BinsOrdered(i: nat, j: nat, s: nat, t: nat)
    requires InBin(i, s) && InBin(j, t) && i < j
    ensures s < t
  {
    MinSizeMono(i + 1, j);
  }

  lemma HalfBit(s: nat, h: int)
    requires h > 0 && 2 * h <= s < 4 * h
    ensures (s / h) % 2 == if s >= 3 * h then 1 else 0
  {
    if s >= 3 * h {
      DivIs(s, h, 3);
    } else {
      DivIs(s, h, 2);
    }
  }

  lemma DivIs(s: int, h: int, q: int)
    requires h > 0 && q * h <= s < q * h + h
    ensures s / h == q
  {
    var d := s / h;
    assert s == d * h + s % h;
    MulMono(d + 1, q, h);
    MulMono(q + 1, d, h);
  }

  lemma MulMono(a: int, b: int, h: int)
    requires h > 0
    ensures a <= b ==> a * h <= b * h
  {
  }

  lemma MinSize31()
    ensures MinSize(31) == 0xC0_0000
  {
    Pow2Values();
    assert 31 / 2 == 15;
  }

  /** Below 2^40 every size from 256 up lands in the bin whose range holds it. */
  lemma TreeIndexInBin(s: nat)
    requires 256 <= s < 0x100_0000_0000
    ensures InBin(TreeIndex(s), s)
  {
    hide Pow2, MinSize, Log2;
    var x := s / 256;
    Untruncated(s);
    if x > 0xFFFF {
      MinSize31();
    } else {
      var k := Log2(x);
      SmallLog(x, k);
      ShiftedLog(s, k);
      HalfBit(s, Pow2(k + 7));
      BinOfLog(s, k, (s / Pow2(k + 7)) % 2);
    }
  }

  lemma Untruncated(s: nat)
    requires 256 <= s < 0x100_0000_0000
    ensures 0 < s / 256 < 0x1_0000_0000 && (s / 256) % 0x1_0000_0000 == s / 256
    ensures s / 256 > 0xFFFF ==> s >= 0x100_0000
  {
  }

  lemma BinOfLog(s: nat, k: nat, b: nat)
    requires k <= 15 && 2 * Pow2(k + 7) <= s < 4 * Pow2(k + 7) && b == if s >= 3 * Pow2(k + 7) then 1 else 0
    ensures InBin(2 * k + b, s)
  {
    hide Pow2, MinSize;
    MinSizeAt(k, b);
    MinSizeStep(2 * k + b);
    HalfOf(k, b);
    if 2 * k + b == 31 { MinSize31(); }
  }

  lemma HalfOf(k: nat, b: nat)
    requires b < 2
    ensures (2 * k + b) / 2 == k
  {
  }

  lemma ShiftedLog(s: nat, k: nat)
    requires Pow2(k) <= s / 256 < Pow2(k + 1)
    ensures 2 * Pow2(k + 7) <= s < 4 * Pow2(k + 7)
  {
    Pow2Add(k, 7);
    Pow2Values();
    assert Pow2(k + 1) == 2 * Pow2(k);
  }

  lemma SmallLog(x: nat, k: nat)
    requires 0 < x <= 0xFFFF && k == Log2(x)
    ensures k <= 15
  {
    if k >= 16 {
      Pow2Mono(16, k);
      Pow2Values();
    }
  }

  lemma TreeIndexBound(s: nat)
    ensures TreeIndex(s) < TREEBINS
  {
    var x := (s / 256) % 0x1_0000_0000;
    if 0 < x <= 0xFFFF { SmallLog(x, Log2(x)); }
  }

  lemma MinSizeAt(k: nat, b: nat)
    requires b < 2
    ensures MinSize(2 * k + b) == if b == 0 then 2 * Pow2(k + 7) else 3 * Pow2(k + 7)
  {
    assert (2 * k + b) / 2 == k && (2 * k + b) % 2 == b;
  }

  /**
    Exactly when compute_tree_index names the right bin: the 32-bit truncation of S >> 8 does no harm
    below 2^40, and above it only when what is left of it still selects the last bin.
   */
  lemma TreeIndexExact(s: nat)
    requires 256 <= s
    ensures InBin(TreeIndex(s), s) <==> s < 0x100_0000_0000 || (s / 256) % 0x1_0000_0000 >= 0xC000
  {
    if s < 0x100_0000_0000 {
      TreeIndexInBin(s);
    } else {
      LargeInLast(s, TreeIndex(s));
      LargeIndex(s);
    }
  }

  lemma LargeInLast(s: nat, i: nat)
    requires s >= 0x100_0000_0000
    ensures InBin(i, s) <==> i == 31
  {
    MinSize31();
    if i < 31 {
      MinSizeMono(i + 1, 31);
    }
  }

  lemma LargeIndex(s: nat)
    ensures TreeIndex(s) == 31 <==> (s / 256) % 0x1_0000_0000 >= 0xC000
  {
    var x := (s / 256) % 0x1_0000_0000;
    if 0 < x <= 0xFFFF {
      var k := Log2(x);
      SmallLog(x, k);
      if k == 15 {
        Pow2Values();
        BitOfTruncated(s);
      } else {
        Pow2Mono(k + 1, 15);
        Pow2Values();
      }
    }
  }

  lemma BitOfTruncated(s: nat)
    requires 0x8000 <= (s / 256) % 0x1_0000_0000 <= 0xFFFF
    ensures (s / 0x40_0000) % 2 == 1 <==> (s / 256) % 0x1_0000_0000 >= 0xC000
  {
    var x := (s / 256) % 0x1_0000_0000;
    var q, y, z := (s / 256) / 0x1_0000_0000, x / 0x4000, x % 0x4000;
    assert s == 256 * (0x1_0000_0000 * q + x) + s % 256;
    assert s == 0x40_0000 * (0x4_0000 * q + y) + (256 * z + s % 256);
    Quotient22(0x4_0000 * q + y, 256 * z + s % 256);
    EvenPart(0x2_0000 * q, y);
  }

  lemma Quotient22(a: int, r: int)
    requires 0 <= r < 0x40_0000
    ensures (0x40_0000 * a + r) / 0x40_0000 == a
  {
  }

  lemma EvenPart(a: int, y: int)
    ensures (2 * a + y) % 2 == y % 2
  {
  }

  /** The truncation matters: 2^40 is not filed in the bin that covers it. */
  lemma TreeIndexTruncates()
    ensures !InBin(TreeIndex(0x100_0000_0000), 0x100_0000_0000)
  {
    TreeIndexExact(0x100_0000_0000);
  }

  // ---- steering bits ----

  /** The shifted size K whose sign bit is the next undecided bit of s, within [lo, lo + 2^w). */
  ghost predicate Steers(k: int, s: int, lo: int, w: nat) {
    w <= 64 && lo <= s < lo + Pow2(w) && k == (s - lo) * Pow2(64 - w)
  }

  /** size << leftshift_for_tree_index(i) brings the first undecided size bit to the sign position. */
  lemma SteerStart(s: nat, i: nat)
    requires InBin(i, s) && s < WORD
    ensures Steers((s * Pow2(LeftShift(i))) % WORD, s, Lo(i), Width(i))
  {
    assert Pow2(0) == 1;
    hide Pow2, MinSize;
    Pow2Values();
    if i == 31 {
      LastStart(s);
    } else {
      MinSizeStep(i);
      HalfSplit(i);
      SteerAt(s, i, i / 2, i % 2);
    }
  }

  lemma HalfSplit(i: nat)
    ensures i == 2 * (i / 2) + i % 2 && i % 2 < 2
  {
  }

  lemma SteerAt(s: nat, i: nat, k: nat, b: nat)
    requires i == 2 * k + b && b < 2 && k <= 15 && MinSize(i) <= s < MinSize(i) + Pow2(k + 7)
    ensures Steers((s * Pow2(57 - k)) % WORD, s, MinSize(i), k + 7)
  {
    hide Pow2, MinSize;
    Pow2Values();
    MinSizeAt(k, b);
    Pow2Add(k + 7, 57 - k);
    StartArith(s, MinSize(i), 2 + b, Pow2(k + 7), Pow2(57 - k));
  }

  lemma LastStart(s: nat)
    requires s < WORD && Pow2(0) == 1 && Pow2(64) == WORD
    ensures Steers((s * Pow2(0)) % WORD, s, 0, 64)
  {
    hide Pow2;
  }

  lemma StartArith(s: int, lo: int, c: nat, p: int, q: int)
    requires p > 0 && q > 0 && p * q == WORD && lo == c * p && lo <= s < lo + p
    ensures (s * q) % WORD == (s - lo) * q
  {
    MulBelow(s - lo, p, q);
    assert lo * q == c * (p * q);
    assert s * q == (s - lo) * q + c * WORD;
    ModPlus((s - lo) * q, c);
  }

  lemma MulBelow(x: int, p: int, q: int)
    requires 0 <= x < p && q > 0
    ensures 0 <= x * q < p * q
  {
  }

  lemma ModPlus(x: int, c: nat)
    requires 0 <= x < WORD
    ensures (x + c * WORD) % WORD == x
  {
  }

  /** The sign bit says which half holds s, and shifting it out steers within that half. */
  lemma SteerStep(k: int, s: int, lo: int, w: nat)
    requires Steers(k, s, lo, w) && w > 0
    ensures 0 <= k < WORD
    ensures s < lo + Pow2(w - 1) ==> k / 0x8000_0000_0000_0000 == 0 && Steers((2 * k) % WORD, s, lo, w - 1)
    ensures s >= lo + Pow2(w - 1) ==>
        k / 0x8000_0000_0000_0000 == 1 && Steers((2 * k) % WORD, s, lo + Pow2(w - 1), w - 1)
  {
    Pow2Values();
    Pow2Add(w - 1, 64 - w);
    assert Pow2(64 - (w - 1)) == 2 * Pow2(64 - w);
    StepArith(k, s - lo, Pow2(w - 1), Pow2(64 - w));
  }

  lemma StepArith(k: int, d: int, h: int, q: int)
    requires h > 0 && q > 0 && h * q == 0x8000_0000_0000_0000 && 0 <= d < 2 * h && k == d * q
    ensures 0 <= k < WORD
    ensures d < h ==> k / 0x8000_0000_0000_0000 == 0 && (2 * k) % WORD == d * (2 * q)
    ensures d >= h ==> k / 0x8000_0000_0000_0000 == 1 && (2 * k) % WORD == (d - h) * (2 * q)
  {
    Twice(d, q);
    Twice(d - h, q);
    if d < h {
      MulBelow(d, h, q);
    } else {
      MulBelow(d - h, h, q);
      assert k == (d - h) * q + h * q;
    }
  }

  lemma Twice(a: int, q: int)
    ensures a * (2 * q) == 2 * (a * q)
  {
  }
}

/** Which free chunk malloc uses, and how the bin maps find it. */
module Policy {
  import opened Words
  import opened BinMap
  import opened BinIndex
  import opened Chunk
  import opened Trie
  import opened TreeBins
  import opened TreeSearch
  import opened SmallBins
  import opened Tags
  import opened HeapState

  ghost predicate Roomy(h: Chunks, nb: int, q: int) { q in h && !h[q].used && h[q].size >= nb }

  /** No free chunk other than dv that holds nb bytes is smaller than size. */
  ghost predicate NoneBelow(h: Chunks, dv: int, nb: int, size: int) {
    forall q :: Roomy(h, nb, q) && q != dv ==> size <= h[q].size
  }

  /**
    The policy malloc's own comment promises. Top is used only when no free chunk is big enough.
    A large request gets a best fit among all free chunks. A small request gets a binned chunk of
    exactly its size if there is one, else dv if that is big enough, else a smallest binned chunk.
   */
  ghost predicate Chosen(s: Snap, dv: int, nb: int, p: int) {
    if p == s.top then
      forall q :: !Roomy(s.h, nb, q)
    else
      && Roomy(s.h, nb, p)
      && (p != dv ==> NoneBelow(s.h, dv, nb, s.h[p].size))
      && if nb >= MIN_LARGE then
        (p != dv && Roomy(s.h, nb, dv) ==> s.h[p].size < s.h[dv].size)
            && (p == dv ==> NoneBelow(s.h, dv, nb, s.h[dv].size))
      else
        (p != dv ==> s.h[p].size == nb || !Roomy(s.h, nb, dv)) && (p == dv ==> NoneBelow(s.h, dv, nb, nb + 1))
  }

  /**
    Where dv is after nb bytes were served from chunk p. What is left of a chunk that a small request splits becomes dv,
    and dv itself shrinks or is used up. No other request moves dv: top is no chunk of h0, and what is left of a chunk
    that a large request splits goes into a bin.
   */
  ghost predicate DvAfter(h0: Chunks, dv0: int, dvsize0: int, nb: int, p: int, dv: int, dvsize: int) {
    if p in h0 && (nb < MIN_LARGE || p == dv0) then
      if h0[p].size - nb >= MIN_CHUNK then dv == p + nb && dvsize == h0[p].size - nb
      else if p == dv0 then dv == 0 && dvsize == 0
      else dv == dv0 && dvsize == dvsize0
    else dv == dv0 && dvsize == dvsize0
  }

  /**
    Small requests in a row are served from adjacent memory: if a small request split a chunk, the next small request
    that fits what is left, and has no chunk of exactly its size, is served directly behind it.
   */
  lemma Adjacent(h0: Chunks, dv0: int, dvsize0: int, nb0: int, p0: int, s: Snap, dv: int, dvsize: int, nb: int, p: int)
    requires DvAfter(h0, dv0, dvsize0, nb0, p0, dv, dvsize) && p0 in h0 && nb0 < MIN_LARGE
    requires h0[p0].size - nb0 >= MIN_CHUNK && h0[p0].size - nb0 >= nb && MIN_CHUNK <= nb < MIN_LARGE
    requires dv in s.h && s.h[dv] == Blk(dvsize, false) && Chosen(s, dv, nb, p)
    requires forall q :: q in s.h && !s.h[q].used && s.h[q].size == nb ==> q == dv
    ensures p == p0 + nb0
  {
    assert Roomy(s.h, nb, dv);
  }

  // ---- the small bins ----

  /** A bin is marked just when a chunk of its size is free. */
  lemma BitMeans(s: Snap, dv: int, i: nat)
    requires Inv(s, {dv}) && i < BINS
    ensures Bit(s.smallmap, i) <==> exists q :: Binned(s.h, {dv}, q) && s.h[q].size == 8 * i
    ensures s.smallmap < MAP
  {
    hide Rd, Bit, And, TagsOk, TreesOk, ListOk, SmallOk;
    SmallHolds(s, i);
    HeaderFacts(s.mem, s.smallmap, s.small, s.bs, i);
    if Bit(s.smallmap, i) {
      var q := s.small[i][0];
      assert Binned(s.h, {dv}, q) && s.h[q].size == 8 * i;
    }
    if q :| Binned(s.h, {dv}, q) && s.h[q].size == 8 * i {
      assert q in s.bs;
      assert q in s.small[i];
    }
  }

  lemma SmallHolds(s: Snap, i: nat)
    requires SmallOk(s.mem, s.smallmap, s.small, s.bs) && i < BINS
    ensures |s.small| == BINS && s.smallmap < MAP && ListHolds(s.small[i], i, s.bs)
  {
    hide Bit, Rd, ListOk;
  }

  /** smallmap >> idx has a digit among its last two: that bin is the best fit. */
  lemma ExactBin(m: nat, idx: nat)
    requires m < MAP && idx < 31 && And(Shr(m, idx), 3) != 0
    ensures Shr(m, idx) < MAP
    ensures var i := idx + And(Not(Shr(m, idx)), 1);
            idx <= i <= idx + 1 && Bit(m, i) && (i == idx + 1 ==> !Bit(m, idx))
  {
    hide Bit, Shr, And;
    var x := Shr(m, idx);
    ShrSmaller(m, idx);
    LowTwo(x);
    LowTwo(Not(x));
    ShrBit(m, idx, 0);
    ShrBit(m, idx, 1);
    BitZero(x);
  }

  lemma ShrSmaller(m: nat, i: nat)
    ensures Shr(m, i) <= m
  {
  }

  lemma BitZero(x: nat)
    ensures Bit(x, 0) <==> x % 2 == 1
    ensures x < MAP ==> Not(x) % 2 == 1 - x % 2
  {
  }

  /** smallmap >> idx is zero: no bin from idx up is marked. */
  lemma NoBinFrom(m: nat, idx: nat, j: nat)
    requires Shr(m, idx) == 0 && idx <= j
    ensures !Bit(m, j)
  {
    ShrBit(m, idx, j - idx);
    NoBitsOfZero(j - idx);
  }

  /** The next marked bin after two unmarked ones. */
  lemma NextSmallBin(m: nat, idx: nat)
    requires m < MAP && idx < 31 && And(Shr(m, idx), 3) == 0 && Shr(m, idx) != 0
    ensures var left := And(Shl(Shr(m, idx), idx), LeftBits(Idx2Bit(idx)));
            && left > 0 && LeastBit(left) > 0
            && var i := Bit2Idx(LeastBit(left));
               idx + 2 <= i < BINS && Bit(m, i) && forall j: nat :: idx <= j < i ==> !Bit(m, j)
  {
    hide Bit, Shr, Shl, And, LeftBits, LeastBit, Bit2Idx, Idx2Bit;
    var k := Shl(Shr(m, idx), idx);
    var left := And(k, LeftBits(Idx2Bit(idx)));
    forall j: nat | idx <= j < BINS ensures (Bit(left, j) <==> idx < j && Bit(m, j)) && left < MAP {
      LeftDigit(m, idx, j);
    }
    forall j: nat | j < idx ensures !Bit(left, j) { LowDigit(k, idx, j); }
    assert !Bit(m, idx) && !Bit(m, idx + 1) by {
      LowTwo(Shr(m, idx));
      ShrBit(m, idx, 0);
      ShrBit(m, idx, 1);
    }
    assert left != 0 by { SomeBin(m, idx, left); }
    LeastIndex(left);
  }

  lemma LeftDigit(m: nat, idx: nat, j: nat)
    requires m < MAP && idx <= j < BINS && idx < 31
    ensures var left := And(Shl(Shr(m, idx), idx), LeftBits(Idx2Bit(idx)));
            (Bit(left, j) <==> idx < j && Bit(m, j)) && left < MAP
  {
    hide Bit, Shr, Shl, LeftBits, Idx2Bit, And;
    Truncated(m, idx, j);
    var k := Shl(Shr(m, idx), idx);
    LeftBitsOf(k, idx, j);
    AndBit(k, LeftBits(Idx2Bit(idx)), j);
    AndBit(LeftBits(Idx2Bit(idx)), k, j);
  }

  lemma LowDigit(k: nat, idx: nat, j: nat)
    requires j < idx < 31
    ensures !Bit(And(k, LeftBits(Idx2Bit(idx))), j)
  {
    hide Bit, LeftBits, Idx2Bit, And;
    LeftBitsOf(k, idx, j);
    AndBit(k, LeftBits(Idx2Bit(idx)), j);
    AndBit(LeftBits(Idx2Bit(idx)), k, j);
  }

  lemma SomeBin(m: nat, idx: nat, left: nat)
    requires m < MAP && idx < 31 && Shr(m, idx) != 0 && !Bit(m, idx)
    requires forall j: nat :: idx <= j < BINS ==> (Bit(left, j) <==> idx < j && Bit(m, j))
    ensures left != 0
  {
    hide Bit, Shr;
    if left == 0 {
      forall j: nat | j < BINS ensures !Bit(Shr(m, idx), j) {
        ShrBit(m, idx, j);
        NoBitsOfZero(idx + j);
        if idx + j >= BINS { Pow2At31(); Pow2Mono(32, idx + j); NoBits(m, idx + j); }
      }
      ShrSmaller(m, idx);
      Pow2At31();
      ZeroBits(Shr(m, idx), BINS);
    }
  }

  // ---- the tree bins ----

  /** No tree bin is marked: no large chunk is free outside dv. */
  lemma NoTrees(s: Snap, dv: int)
    requires Inv(s, {dv})
    ensures s.treemap == 0 ==> forall x :: x !in s.bt
  {
    hide Rd, TagsOk, SmallOk, BinsMatch, TreesOk, Bit, TreeIndex, Here, Sizes;
    if x :| x in s.bt {
      var g := TreeMarked(s.mem, s.treemap, s.trees, s.bt, x);
      NoBitsOfZero(g);
    }
  }

  lemma TreeMarked(m: Mem, treemap: nat, trees: seq<Tree>, b: map<int, int>, x: int) returns (g: nat)
    requires TreesOk(m, treemap, trees, b) && x in b
    ensures Bit(treemap, g)
  {
    hide Rd, Bit, TreeIndex, Here, Sizes;
    assert LargeChunk(m, x, b[x]);
    TreesFacts(m, treemap, trees, b);
    g := TreeIndex(b[x]);
    TreeIndexBound(b[x]);
    BinHere(m, treemap, trees, b, g);
    NonEmpty(trees[g], b[x]);
  }

  /** The comparison that decides between the best tree chunk and dv. */
  lemma TreeOrDv(s: Snap, dv: int, dvsize: int, nb: int, v: int, rsize: int)
    requires Inv(s, {dv}) && MIN_LARGE <= nb < WORD && 0 <= dvsize < SIZE_LIMIT
    requires if dv == 0 then dvsize == 0 && 0 !in s.h else dv in s.h && s.h[dv] == Blk(dvsize, false)
    requires Best(s.bt, nb, v, rsize) && forall x :: x in s.bt && s.bt[x] >= nb ==> AtMost(nb, v, rsize, s.bt[x])
    ensures v != 0 && rsize < Sub64(dvsize, nb) ==>
        v != dv && Binned(s.h, {dv}, v) && s.h[v].size == rsize + nb && rsize >= 0 && v != s.top && Chosen(s, dv, nb, v)
    ensures !(v != 0 && rsize < Sub64(dvsize, nb)) ==> if nb <= dvsize
        then dv != s.top && Chosen(s, dv, nb, dv) else forall q :: !Roomy(s.h, nb, q)
  {
    hide Rd, TagsOk, SmallOk, TreesOk;
    assert s.top !in s.h by { TopOutside(s, dv); }
    forall q | Roomy(s.h, nb, q) && q != dv ensures q in s.bt && s.bt[q] == s.h[q].size >= nb {
      assert Binned(s.h, {dv}, q);
    }
    if v != 0 {
      TreeSizes(s, v);
    }
  }

  lemma TreeSizes(s: Snap, v: int)
    requires TreesOk(s.mem, s.treemap, s.trees, s.bt) && v in s.bt
    ensures s.bt[v] < SIZE_LIMIT
  {
    hide Rd, BinOk, Holds, ChunkSize;
    assert LargeChunk(s.mem, v, s.bt[v]);
  }

  lemma TopOutside(s: Snap, dv: int)
    requires Inv(s, {dv})
    ensures s.top !in s.h
  {
    hide Rd, SmallOk, TreesOk, TagsOk, BinsMatch;
    HeapBounds(s.mem, s.h, s.base, s.top, s.topsize);
  }

  // ---- the choices for a small request ----

  ghost predicate SmallRequest(nb: int) { MIN_CHUNK <= nb < MIN_LARGE && nb % 16 == 0 }

  /** A free chunk that holds a small request is in a marked bin from its index up, or in a tree. */
  lemma RoomyBin(s: Snap, dv: int, nb: int, q: int)
    requires Inv(s, {dv}) && SmallRequest(nb) && Roomy(s.h, nb, q) && q != dv
    ensures s.h[q].size % 16 == 0 && nb / 8 <= s.h[q].size / 8 && s.h[q].size == 8 * (s.h[q].size / 8)
    ensures if s.h[q].size < MIN_LARGE then s.h[q].size / 8 < BINS && Bit(s.smallmap, s.h[q].size / 8)
        else q in s.bt && s.bt[q] == s.h[q].size
  {
    hide Rd, TagsOk, SmallOk, TreesOk, Bit;
    assert s.h[q].size % 16 == 0 by { ChunkFacts(s.mem, s.h, s.base, s.top, s.topsize, q); }
    assert Binned(s.h, {dv}, q);
    if s.h[q].size < MIN_LARGE { BitMeans(s, dv, s.h[q].size / 8); }
  }

  lemma ChooseExact(s: Snap, dv: int, nb: int, i: nat, p: int)
    requires Inv(s, {dv}) && SmallRequest(nb) && nb / 8 <= i <= nb / 8 + 1 && Binned(s.h, {dv}, p)
    requires s.h[p].size == 8 * i
    ensures 8 * i == nb && p != s.top && Chosen(s, dv, nb, p)
  {
    hide Rd, TagsOk, SmallOk, TreesOk, BinsMatch;
    TopOutside(s, dv);
    assert s.h[p].size % 16 == 0 by { ChunkFacts(s.mem, s.h, s.base, s.top, s.topsize, p); }
  }

  lemma ChooseNext(s: Snap, dv: int, nb: int, i: nat, p: int)
    requires Inv(s, {dv}) && SmallRequest(nb) && !Roomy(s.h, nb, dv) && nb / 8 <= i < BINS && Binned(s.h, {dv}, p)
    requires s.h[p].size == 8 * i
    requires forall j: nat :: nb / 8 <= j < i ==> !Bit(s.smallmap, j)
    ensures p != s.top && Chosen(s, dv, nb, p)
  {
    hide Rd, TagsOk, SmallOk, TreesOk, BinsMatch, Bit, Inv;
    TopOutside(s, dv);
    forall q | Roomy(s.h, nb, q) && q != dv ensures s.h[p].size <= s.h[q].size { RoomyBin(s, dv, nb, q); }
  }

  lemma ChooseTree(s: Snap, dv: int, nb: int, v: int)
    requires Inv(s, {dv}) && SmallRequest(nb) && !Roomy(s.h, nb, dv) && Shr(s.smallmap, nb / 8) == 0
    requires v in s.bt && forall x :: x in s.bt ==> s.bt[v] <= s.bt[x]
    ensures v != s.top && Chosen(s, dv, nb, v) && Binned(s.h, {dv}, v) && s.h[v].size == s.bt[v] >= MIN_LARGE
  {
    hide Rd, TagsOk, SmallOk, TreesOk, Bit, Shr;
    TopOutside(s, dv);
    forall q | Roomy(s.h, nb, q) && q != dv ensures s.h[v].size <= s.h[q].size {
      RoomyBin(s, dv, nb, q);
      NoBinFrom(s.smallmap, nb / 8, if s.h[q].size < MIN_LARGE then s.h[q].size / 8 else nb / 8);
    }
  }

  lemma ChooseDv(s: Snap, dv: int, nb: int)
    requires Inv(s, {dv}) && SmallRequest(nb) && Roomy(s.h, nb, dv) && And(Shr(s.smallmap, nb / 8), 3) == 0
    ensures dv != s.top && Chosen(s, dv, nb, dv)
  {
    hide Rd, TagsOk, SmallOk, TreesOk, BinsMatch, Bit, Shr, And, Inv;
    TopOutside(s, dv);
    assert !Bit(s.smallmap, nb / 8) by {
      LowTwo(Shr(s.smallmap, nb / 8));
      ShrBit(s.smallmap, nb / 8, 0);
    }
    forall q | Roomy(s.h, nb, q) && q != dv ensures nb + 1 <= s.h[q].size { RoomyBin(s, dv, nb, q); }
  }

  lemma ChooseTop(s: Snap, dv: int, nb: int)
    requires Inv(s, {dv}) && SmallRequest(nb) && !Roomy(s.h, nb, dv) && Shr(s.smallmap, nb / 8) == 0 && s.treemap == 0
    ensures forall q :: !Roomy(s.h, nb, q)
  {
    hide Rd, TagsOk, SmallOk, TreesOk, BinsMatch, Bit, Shr, Inv;
    forall q | Roomy(s.h, nb, q) && q != dv ensures q in s.bt {
      RoomyBin(s, dv, nb, q);
      NoBinFrom(s.smallmap, nb / 8, if s.h[q].size < MIN_LARGE then s.h[q].size / 8 else nb / 8);
    }
    NoTrees(s, dv);
  }
}

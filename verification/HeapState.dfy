/** The heap as a whole: boundary tags, small bins and tree bins over one word store. */
module HeapState {
  import opened Words
  import opened BinMap
  import opened BinIndex
  import opened Chunk
  import opened Trie
  import opened TrieLinks
  import opened TreeBins
  import opened SmallBins
  import opened Tags

  /** Everything malloc_state and the segment hold, except dv. */
  datatype Snap = Snap(
    mem: Mem, smallmap: nat, treemap: nat, top: int, topsize: int, base: int,
    h: Chunks, small: seq<seq<int>>, trees: seq<Tree>, bs: map<int, int>, bt: map<int, int>)

  ghost predicate Binned(h: Chunks, x: set<int>, p: int) { p in h && !h[p].used && p !in x }

  /** The bins hold exactly the free chunks outside x, each by its size. */
  ghost predicate BinsMatch(h: Chunks, x: set<int>, bs: map<int, int>, bt: map<int, int>) {
    && (forall p :: p in bs <==> Binned(h, x, p) && h[p].size < MIN_LARGE)
    && (forall p :: p in bt <==> Binned(h, x, p) && h[p].size >= MIN_LARGE)
    && (forall p :: p in bs ==> bs[p] == h[p].size)
    && (forall p :: p in bt ==> bt[p] == h[p].size)
  }

  /** The invariant, with the free chunks of x not in any bin. */
  ghost predicate Inv(s: Snap, x: set<int>) {
    && TagsOk(s.mem, s.h, s.base, s.top, s.topsize)
    && s.top + s.topsize - s.base < SIZE_LIMIT
    && SmallOk(s.mem, s.smallmap, s.small, s.bs)
    && TreesOk(s.mem, s.treemap, s.trees, s.bt)
    && BinsMatch(s.h, x, s.bs, s.bt)
  }

  /** The usable words of chunk q: from after its head through the next chunk's first word. */
  ghost predicate PayloadWord(h: Chunks, q: int, w: int)
    requires q in h
  {
    q + FD <= w < q + h[q].size + HEAD
  }

  ghost predicate SameTag(m: Mem, n: Mem, p: int) { Rd(n, p) == Rd(m, p) && Rd(n, p + HEAD) == Rd(m, p + HEAD) }

  ghost predicate SamePayload(m: Mem, n: Mem, h: Chunks, q: int)
    requires q in h
  {
    forall w :: PayloadWord(h, q, w) ==> Rd(n, w) == Rd(m, w)
  }

  /** No word of a chunk in use, and no tag, has changed. */
  ghost predicate Undisturbed(m: Mem, n: Mem, h: Chunks, top: int) {
    && (forall p :: p in h || p == top ==> SameTag(m, n, p))
    && (forall q :: q in h && h[q].used ==> SamePayload(m, n, h, q))
  }

  /** Word w is inside a free chunk of b, beyond its head. */
  ghost predicate Inside(b: map<int, int>, w: int) { exists y :: y in b && y + FD <= w < y + b[y] }

  /** Writes inside free chunks, or below the heap, disturb nothing. */
  lemma InsideOnly(m: Mem, n: Mem, h: Chunks, base: int, top: int, topsize: int, b: map<int, int>)
    requires TagsOk(m, h, base, top, topsize)
    requires forall y :: y in b ==> y in h && !h[y].used && b[y] == h[y].size
    requires forall w :: w >= LOWEST && !Inside(b, w) ==> Rd(n, w) == Rd(m, w)
    ensures Undisturbed(m, n, h, top)
  {
    hide Rd, TagsOk, Inside;
    HeapBounds(m, h, base, top, topsize);
    forall p | p in h || p == top ensures SameTag(m, n, p) {
      TagNotInside(h, base, top, b, p);
    }
    forall q | q in h && h[q].used ensures SamePayload(m, n, h, q) {
      forall w | PayloadWord(h, q, w) ensures Rd(n, w) == Rd(m, w) {
        PayloadNotInside(h, base, top, b, q, w);
      }
    }
  }

  lemma TagNotInside(h: Chunks, base: int, top: int, b: map<int, int>, p: int)
    requires forall y :: y in h ==> base <= y && y + MIN_CHUNK <= y + h[y].size <= top
    requires Disjoint(h) && (forall y :: y in b ==> y in h && b[y] == h[y].size) && (p in h || p == top)
    ensures !Inside(b, p) && !Inside(b, p + HEAD)
  {
  }

  lemma PayloadNotInside(h: Chunks, base: int, top: int, b: map<int, int>, q: int, w: int)
    requires forall y :: y in h ==> base <= y && y + MIN_CHUNK <= y + h[y].size <= top
    requires Disjoint(h) && (forall y :: y in b ==> y in h && !h[y].used && b[y] == h[y].size)
    requires q in h && h[q].used && PayloadWord(h, q, w)
    ensures !Inside(b, w)
  {
  }

  lemma HeapBounds(m: Mem, h: Chunks, base: int, top: int, topsize: int)
    requires TagsOk(m, h, base, top, topsize)
    ensures LOWEST <= base <= top && topsize > 0
    ensures forall p :: p in h ==> base <= p && p + MIN_CHUNK <= p + h[p].size <= top
    ensures Disjoint(h)
  {
    forall p | p in h ensures base <= p && p + MIN_CHUNK <= p + h[p].size <= top {
      ChunkFacts(m, h, base, top, topsize, p);
    }
  }

  // ---- a change that leaves the chunks of some bins alone ----

  lemma TreesFrame(m: Mem, n: Mem, treemap: nat, trees: seq<Tree>, b: map<int, int>)
    requires TreesOk(m, treemap, trees, b)
    requires forall x :: x in b ==> SameNode(m, n, x)
    requires forall i: nat :: i < TREEBINS ==> Rd(n, TreebinAt(i)) == Rd(m, TreebinAt(i))
    ensures TreesOk(n, treemap, trees, b)
  {
    hide Rd, BinOk, TreeIndex, Members;
    forall i | 0 <= i < TREEBINS ensures BinOk(n, treemap, trees[i], i) {
      assert BinOk(m, treemap, trees[i], i) && Holds(trees[i], i, b);
      OtherBin(m, n, treemap, treemap, trees[i], i);
    }
  }

  lemma SmallFrame(m: Mem, n: Mem, smallmap: nat, small: seq<seq<int>>, b: map<int, int>)
    requires SmallOk(m, smallmap, small, b)
    requires forall x :: x in b ==> SameRing(m, n, x) && Rd(n, x + HEAD) == Rd(m, x + HEAD)
    requires forall i: nat :: i < BINS ==> SameRing(m, n, SmallbinAt(i))
    ensures SmallOk(n, smallmap, small, b)
  {
    hide Rd, ListOk, SameRing, Bit;
    forall i | 0 <= i < BINS ensures ListOk(n, smallmap, small[i], i) {
      assert ListOk(m, smallmap, small[i], i) && ListHolds(small[i], i, b);
      ListFrame(m, n, smallmap, smallmap, small[i], i);
    }
  }

  /** Chunk places far enough apart for any write inside one to miss the fields of the other. */
  ghost predicate ApartFrom(b: map<int, int>, c: map<int, int>) {
    forall x, y :: x in b && y in c ==> x + b[x] <= y || y + c[y] <= x
  }

  /** Writes inside chunks c and to the small bin headers leave the tree bins alone. */
  lemma TreesQuiet(m: Mem, n: Mem, treemap: nat, trees: seq<Tree>, b: map<int, int>, c: map<int, int>)
    requires TreesOk(m, treemap, trees, b) && ApartFrom(b, c)
    requires forall w :: !Inside(c, w) && !SmallSlot(w) ==> Rd(n, w) == Rd(m, w)
    requires forall y :: y in c ==> y >= LOWEST
    ensures TreesOk(n, treemap, trees, b)
  {
    hide Rd, BinOk, Holds;
    assert forall x :: x in b ==> x >= LOWEST && b[x] >= MIN_LARGE;
    forall x | x in b ensures SameNode(m, n, x) {
      assert forall w :: x <= w < x + 64 ==> !Inside(c, w) && !SmallSlot(w);
    }
    assert forall i: nat :: i < TREEBINS ==> !Inside(c, TreebinAt(i)) && !SmallSlot(TreebinAt(i));
    TreesFrame(m, n, treemap, trees, b);
  }

  /** Writes inside chunks c and to the tree bin slots leave the small bins alone. */
  lemma SmallQuiet(m: Mem, n: Mem, smallmap: nat, small: seq<seq<int>>, b: map<int, int>, c: map<int, int>)
    requires SmallOk(m, smallmap, small, b) && ApartFrom(b, c)
    requires forall w :: !Inside(c, w) && !TreeSlot(w) ==> Rd(n, w) == Rd(m, w)
    requires forall y :: y in c ==> y >= LOWEST
    ensures SmallOk(n, smallmap, small, b)
  {
    hide Rd, ListOk, ListHolds;
    assert forall x :: x in b ==> x >= LOWEST && b[x] >= MIN_CHUNK;
    forall x | x in b ensures SameRing(m, n, x) && Rd(n, x + HEAD) == Rd(m, x + HEAD) {
      assert forall w :: x <= w < x + 32 ==> !Inside(c, w) && !TreeSlot(w);
    }
    forall i: nat | i < BINS ensures SameRing(m, n, SmallbinAt(i)) {
      assert !Inside(c, SmallbinAt(i) + FD) && !Inside(c, SmallbinAt(i) + BK);
    }
    SmallFrame(m, n, smallmap, small, b);
  }

  // ---- bin operations on the whole heap ----

  lemma TagsFrame(m: Mem, n: Mem, h: Chunks, base: int, top: int, topsize: int)
    requires TagsOk(m, h, base, top, topsize) && Undisturbed(m, n, h, top)
    ensures TagsOk(n, h, base, top, topsize)
  {
    hide Rd, PInUse, SamePayload;
    forall p | p in h ensures TagOk(n, h, p) {
      assert TagOk(m, h, p) && Placement(h, base, top, p);
      assert SameTag(m, n, p) && SameTag(m, n, p + h[p].size);
    }
    assert SameTag(m, n, top);
  }

  lemma HeadDecode(size: int, c: bool, p: bool)
    requires size % 16 == 0
    ensures ChunkSize(HeadOf(size, c, p)) == size
    ensures CInUse(HeadOf(size, c, p)) <==> c
    ensures PInUse(HeadOf(size, c, p)) <==> p
  {
    var k, f := size / 16, (if c then 2 else 0) + (if p then 1 else 0);
    assert HeadOf(size, c, p) == 16 * k + f;
    LowBitsOf(k, f);
  }

  lemma LowBitsOf(k: int, f: int)
    requires 0 <= f < 4
    ensures (16 * k + f) % 8 == f && (16 * k + f) % 2 == f % 2 && (16 * k + f) / 2 == 8 * k + f / 2
    ensures (8 * k + f / 2) % 2 == f / 2
  {
  }

  /** What a chunk's head word says when read. */
  lemma HeadFacts(m: Mem, h: Chunks, base: int, top: int, topsize: int, p: int)
    requires TagsOk(m, h, base, top, topsize) && p in h
    ensures ChunkSize(Rd(m, p + HEAD)) == h[p].size
    ensures CInUse(Rd(m, p + HEAD)) <==> h[p].used
    ensures Rd(m, p + HEAD) == HeadOf(h[p].size, h[p].used, PBit(m, p))
  {
    hide Rd, TagsOk, ChunkSize, CInUse, PInUse;
    ChunkFacts(m, h, base, top, topsize, p);
    HeadDecode(h[p].size, h[p].used, true);
    HeadDecode(h[p].size, h[p].used, false);
  }

  /** Free chunks that are in bins, or about to be, are apart. */
  lemma FreeApart(m: Mem, h: Chunks, base: int, top: int, topsize: int, b: map<int, int>, c: map<int, int>)
    requires TagsOk(m, h, base, top, topsize)
    requires forall y :: y in b ==> y in h && b[y] == h[y].size
    requires forall y :: y in c ==> y in h && c[y] == h[y].size && y !in b
    ensures ApartFrom(b, c) && (forall y :: y in b ==> y >= LOWEST) && (forall y :: y in c ==> y >= LOWEST)
  {
    hide Rd, TagsOk;
    HeapBounds(m, h, base, top, topsize);
  }

  /** After a small bin has changed within its own chunks, everything else is as it was. */
  lemma SmallStep(s: Snap, x: set<int>, n: Mem, smallmap: nat, small: seq<seq<int>>, bs: map<int, int>, c: map<int,
                  int>, x': set<int>)
    requires Inv(s, x) && SmallOk(n, smallmap, small, bs)
    requires forall y :: y in c ==> y in s.h && !s.h[y].used && c[y] == s.h[y].size && y !in s.bt
    requires OnlySmallLinks(s.mem, n, c.Keys)
    requires BinsMatch(s.h, x', bs, s.bt)
    ensures Inv(s.(mem := n, smallmap := smallmap, small := small, bs := bs), x')
    ensures Undisturbed(s.mem, n, s.h, s.top)
  {
    hide Rd, TagsOk, SmallOk, TreesOk;
    HeapBounds(s.mem, s.h, s.base, s.top, s.topsize);
    forall w | !Inside(c, w) && !SmallSlot(w) ensures Rd(n, w) == Rd(s.mem, w) {
      assert OffSmall(c.Keys, w);
    }
    InsideOnly(s.mem, n, s.h, s.base, s.top, s.topsize, c);
    TagsFrame(s.mem, n, s.h, s.base, s.top, s.topsize);
    FreeApart(s.mem, s.h, s.base, s.top, s.topsize, s.bt, c);
    TreesQuiet(s.mem, n, s.treemap, s.trees, s.bt, c);
  }

  /** After a tree bin has changed within its own chunks, everything else is as it was. */
  lemma TreeStep(s: Snap, x: set<int>, n: Mem, treemap: nat, trees: seq<Tree>, bt: map<int, int>, c: map<int, int>,
                 x': set<int>)
    requires Inv(s, x) && TreesOk(n, treemap, trees, bt)
    requires forall y :: y in c ==> y in s.h && !s.h[y].used && c[y] == s.h[y].size >= MIN_LARGE && y !in s.bs
    requires OnlyLinks(s.mem, n, c.Keys)
    requires BinsMatch(s.h, x', s.bs, bt)
    ensures Inv(s.(mem := n, treemap := treemap, trees := trees, bt := bt), x')
    ensures Undisturbed(s.mem, n, s.h, s.top)
  {
    hide Rd, TagsOk, SmallOk, TreesOk;
    HeapBounds(s.mem, s.h, s.base, s.top, s.topsize);
    forall w | !Inside(c, w) && !TreeSlot(w) ensures Rd(n, w) == Rd(s.mem, w) {
      assert Off(c.Keys, w);
    }
    InsideOnly(s.mem, n, s.h, s.base, s.top, s.topsize, c);
    TagsFrame(s.mem, n, s.h, s.base, s.top, s.topsize);
    FreeApart(s.mem, s.h, s.base, s.top, s.topsize, s.bs, c);
    SmallQuiet(s.mem, n, s.smallmap, s.small, s.bs, c);
  }

  // ---- rewriting tags on the whole heap ----

  /** No binned chunk starts in [a, e), and if one starts at e its head word is kept. */
  ghost predicate ClearOfBins(s: Snap, x: set<int>, n: Mem, a: int, e: int) {
    forall p :: Binned(s.h, x, p) ==> p < a || p > e || (p == e && Rd(n, e + HEAD) == Rd(s.mem, e + HEAD))
  }

  lemma BinsLocal(s: Snap, x: set<int>, n: Mem, a: int, e: int)
    requires Inv(s, x) && (a in s.h || a == s.top) && a <= e && ClearOfBins(s, x, n, a, e)
    requires forall w :: w < a + HEAD || (w > e + HEAD && w < s.top) ==> Rd(n, w) == Rd(s.mem, w)
    ensures SmallOk(n, s.smallmap, s.small, s.bs) && TreesOk(n, s.treemap, s.trees, s.bt)
  {
    hide Rd, TagsOk, SmallOk, TreesOk;
    HeapBounds(s.mem, s.h, s.base, s.top, s.topsize);
    forall y | y in s.bs ensures SameRing(s.mem, n, y) && Rd(n, y + HEAD) == Rd(s.mem, y + HEAD) {
      BinnedWords(s, x, n, a, e, y, 32);
    }
    forall y | y in s.bt ensures SameNode(s.mem, n, y) {
      BinnedWords(s, x, n, a, e, y, 64);
    }
    SmallFrame(s.mem, n, s.smallmap, s.small, s.bs);
    TreesFrame(s.mem, n, s.treemap, s.trees, s.bt);
  }

  lemma BinnedWords(s: Snap, x: set<int>, n: Mem, a: int, e: int, y: int, len: int)
    requires Inv(s, x) && (a in s.h || a == s.top) && a <= e && ClearOfBins(s, x, n, a, e)
    requires forall w :: w < a + HEAD || (w > e + HEAD && w < s.top) ==> Rd(n, w) == Rd(s.mem, w)
    requires Binned(s.h, x, y) && len <= s.h[y].size
    ensures forall w :: y + HEAD <= w < y + len && w % 8 == 0 ==> Rd(n, w) == Rd(s.mem, w)
  {
    hide Rd, TagsOk, SmallOk, TreesOk;
    HeapBounds(s.mem, s.h, s.base, s.top, s.topsize);
  }
}
